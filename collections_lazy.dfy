/** The lazy iterators of `org.tbull.util.Collections` (`grepLazy`, `mapLazy`).

    Both walk an array of sources with a source index `i` and the current source's
    iterator `it`. Here a source is a sequence, `it` is a cursor `pos` into
    `sources[i]`, and `it == null` is "`i` is not a valid source index" (`i` is -1
    when there are no sources, and runs one past the last source once they are
    exhausted). `lastRet` is the source iterator's own permission to `remove()`
    (set by its `next()`, cleared by its `remove()`, as `java.util.ArrayList`'s
    iterator does). */
module CollectionsLazy {
  import opened JavaLang
  import opened CollectionsSpec

  /** The part of source `i` not yet pulled, followed by all later sources, read
      element by element as the iterator reads them. */
  function RestOf<E>(sources: seq<seq<E>>, i: int, pos: nat): seq<E>
    requires 0 <= i < |sources| ==> pos <= |sources[i]|
    decreases |sources| - i, if 0 <= i < |sources| then |sources[i]| - pos else 0
  {
    if !(0 <= i < |sources|) then []
    else if pos < |sources[i]| then [sources[i][pos]] + RestOf(sources, i, pos + 1)
    else RestOf(sources, i + 1, 0)
  }

  /** The cursor's view agrees with the flattened sources. */
  lemma {:induction false} RestIsConcat<E>(sources: seq<seq<E>>, i: int, pos: nat)
    requires 0 <= i < |sources| && pos <= |sources[i]|
    ensures RestOf(sources, i, pos) == sources[i][pos..] + Concat(sources[i + 1..])
    decreases |sources| - i, |sources[i]| - pos
  {
    if pos < |sources[i]| {
      RestIsConcat(sources, i, pos + 1);
      var x, a, c := sources[i][pos], sources[i][pos + 1..], Concat(sources[i + 1..]);
      assert sources[i][pos..] == [x] + a;
      calc {
        RestOf(sources, i, pos);
        [x] + RestOf(sources, i, pos + 1);
        [x] + (a + c);
        ([x] + a) + c;
      }
    } else if i + 1 < |sources| {
      RestIsConcat(sources, i + 1, 0);
      ConcatFrom(sources, i + 1);
      assert sources[i + 1][0..] == sources[i + 1];
      assert sources[i][pos..] == [];
      calc {
        RestOf(sources, i, pos);
        RestOf(sources, i + 1, 0);
        sources[i + 1] + Concat(sources[i + 2..]);
        Concat(sources[i + 1..]);
        sources[i][pos..] + Concat(sources[i + 1..]);
      }
    } else {
      assert sources[i][pos..] == [] && sources[i + 1..] == [];
    }
  }

  /** `before` lost a prefix `pulled` to become `after`: the last pulled element is
      `found` (when one was found) and no element pulled before it was accepted.
      This is "pull only up to the first accepted element". */
  ghost predicate PulledUpTo<E>(accept: E -> bool, before: seq<E>, after: seq<E>, found: Option<E>)
  {
    |after| <= |before| &&
    var pulled := before[..|before| - |after|];
    before == pulled + after &&
    match found
      case Some(x) => pulled != [] && pulled[|pulled| - 1] == x && accept(x) && NoneAccepted(accept, pulled[..|pulled| - 1])
      case None => after == [] && NoneAccepted(accept, pulled)
  }

  lemma RestStart<E>(sources: seq<seq<E>>)
    requires |sources| > 0
    ensures RestOf(sources, 0, 0) == Concat(sources)
  {
    RestIsConcat(sources, 0, 0);
    assert sources[0][0..] == sources[0] && sources[1..] == sources[1..];
  }

  /** The rest seen from `pos` is the slice up to a later `p` followed by the rest
      seen from `p`. */
  lemma RestSplit<E>(sources: seq<seq<E>>, i: int, pos: nat, p: nat)
    requires 0 <= i < |sources| && pos <= p <= |sources[i]|
    ensures RestOf(sources, i, pos) == sources[i][pos..p] + RestOf(sources, i, p)
  {
    RestIsConcat(sources, i, pos);
    RestIsConcat(sources, i, p);
    assert sources[i][pos..] == sources[i][pos..p] + sources[i][p..];
  }

  lemma NoneAcceptedJoin<E>(accept: E -> bool, a: seq<E>, b: seq<E>)
    requires NoneAccepted(accept, a) && NoneAccepted(accept, b)
    ensures NoneAccepted(accept, a + b)
  {
    forall k | 0 <= k < |a + b|
      ensures !accept((a + b)[k])
    {
      if k >= |a| {
        assert (a + b)[k] == b[k - |a|];
      }
    }
  }

  /** An accepted element right after rejected ones ends the pull. */
  lemma FoundStops<E>(accept: E -> bool, before: seq<E>, seen: seq<E>, x: E, after: seq<E>)
    requires before == (seen + [x]) + after && NoneAccepted(accept, seen) && accept(x)
    ensures PulledUpTo(accept, before, after, Some(x))
  {
    var pulled := before[..|before| - |after|];
    assert pulled == seen + [x];
    assert pulled[..|pulled| - 1] == seen;
  }

  /** A scan that stopped on the accepted element `l[p - 1]` after starting at
      `pos`, where `before` was what was left when the scan of all sources began
      (`seen` pulled and rejected since, then `rest`), pulled only up to that
      element. */
  lemma ScanFound<E>(accept: E -> bool, l: seq<E>, pos: nat, p: nat, before: seq<E>, seen: seq<E>, rest: seq<E>, after: seq<E>)
    requires pos < p <= |l| && rest == l[pos..p] + after
    requires before == seen + rest && NoneAccepted(accept, seen)
    requires accept(l[p - 1]) && NoneAccepted(accept, l[pos..p - 1])
    ensures PulledUpTo(accept, before, after, Some(l[p - 1]))
  {
    var x, scanned := l[p - 1], l[pos..p - 1];
    assert l[pos..p] == scanned + [x];
    NoneAcceptedJoin(accept, seen, scanned);
    assert before == (seen + scanned + [x]) + after;
    FoundStops(accept, before, seen + scanned, x, after);
  }

  /** A scan that found nothing adds all it pulled to what was rejected. */
  lemma ScanExhausted<E>(accept: E -> bool, scanned: seq<E>, before: seq<E>, seen: seq<E>, rest: seq<E>, after: seq<E>)
    requires rest == scanned + after
    requires before == seen + rest && NoneAccepted(accept, seen)
    requires NoneAccepted(accept, scanned)
    ensures before == (seen + scanned) + after
    ensures NoneAccepted(accept, seen + scanned)
  {
    NoneAcceptedJoin(accept, seen, scanned);
  }

  /** What a scan of source `i` from `pos` that ended at `p` has pulled: up to the
      first accepted element when it `found` one, and otherwise the whole rest of
      that source, all rejected. */
  lemma ScanOutcome<E>(accept: E -> bool, sources: seq<seq<E>>, i: int, pos: nat, p: nat, found: bool, before: seq<E>, seen: seq<E>)
    requires 0 <= i < |sources| && pos <= p <= |sources[i]|
    requires before == seen + RestOf(sources, i, pos) && NoneAccepted(accept, seen)
    requires found ==> pos < p && accept(sources[i][p - 1]) && NoneAccepted(accept, sources[i][pos..p - 1])
    requires !found ==> p == |sources[i]| && NoneAccepted(accept, sources[i][pos..])
    ensures found ==> PulledUpTo(accept, before, RestOf(sources, i, p), Some(sources[i][p - 1]))
    ensures !found ==> before == (seen + sources[i][pos..]) + RestOf(sources, i + 1, 0)
    ensures !found ==> NoneAccepted(accept, seen + sources[i][pos..])
  {
    ghost var rest, after := RestOf(sources, i, pos), RestOf(sources, i, p);
    RestSplit(sources, i, pos, p);
    if found {
      ScanFound(accept, sources[i], pos, p, before, seen, rest, after);
    } else {
      assert sources[i][pos..p] == sources[i][pos..];
      assert after == RestOf(sources, i + 1, 0);
      ScanExhausted(accept, sources[i][pos..], before, seen, rest, after);
    }
  }

  /** The inner `while (it.hasNext())` loop of `hasNext()` over one source `l`,
      starting at `start`: pulls elements up to and including the first accepted
      one (`found`, ending at `p - 1`), or to the end of `l`. */
  method FirstAccepted<E>(accept: E -> bool, l: seq<E>, start: nat) returns (p: nat, found: bool)
    requires start <= |l|
    ensures start <= p <= |l|
    ensures found ==> start < p && accept(l[p - 1]) && NoneAccepted(accept, l[start..p - 1])
    ensures !found ==> p == |l| && NoneAccepted(accept, l[start..])
  {
    p, found := start, false;
    while !found && p < |l|
      invariant start <= p <= |l|
      invariant found ==> start < p && accept(l[p - 1]) && NoneAccepted(accept, l[start..p - 1])
      invariant !found ==> NoneAccepted(accept, l[start..p])
    {
      found := accept(l[p]);
      p := p + 1;
      if !found {
        assert l[start..p] == l[start..p - 1] + [l[p - 1]];
        NoneAcceptedJoin(accept, l[start..p - 1], [l[p - 1]]);
      }
    }
    if !found {
      assert l[start..p] == l[start..];
    }
  }

  lemma ExhaustedExit<E>(accept: E -> bool, before: seq<E>, seen: seq<E>)
    requires before == seen && NoneAccepted(accept, seen)
    ensures PulledUpTo(accept, before, [], None)
  {
    assert before[..|before|] == before;
  }

  /** Pulling only up to the first accepted element loses no accepted element. */
  lemma PulledKeepsFilter<E>(accept: E -> bool, before: seq<E>, after: seq<E>, found: Option<E>)
    requires PulledUpTo(accept, before, after, found)
    ensures Filter(accept, before) == (if found.Some? then [found.value] else []) + Filter(accept, after)
  {
    var pulled := before[..|before| - |after|];
    if found.Some? {
      var seen := pulled[..|pulled| - 1];
      assert pulled == seen + [found.value];
      assert before == seen + ([found.value] + after);
      FilterSkipRejected(accept, seen, [found.value] + after);
    } else {
      FilterNoneAccepted(accept, pulled);
      assert before == pulled;
    }
  }

  /** Removing the element just before the cursor leaves what is ahead unchanged. */
  lemma RestAfterRemove<E>(sources: seq<seq<E>>, i: int, pos: nat)
    requires 0 <= i < |sources| && 0 < pos <= |sources[i]|
    ensures var l := sources[i];
            RestOf(sources[i := l[..pos - 1] + l[pos..]], i, pos - 1) == RestOf(sources, i, pos)
  {
    var l := sources[i];
    var after := sources[i := l[..pos - 1] + l[pos..]];
    RestIsConcat(sources, i, pos);
    RestIsConcat(after, i, pos - 1);
    assert after[i][pos - 1..] == l[pos..];
    assert after[i + 1..] == sources[i + 1..];
  }

  /** The lazy grep iterator (`LazyGrepIterator`). */
  class LazyGrepIterator<E> {
    const accept: E -> bool
    var sources: seq<seq<E>>   // the input lists; only `Remove` changes them
    var i: int                 // current source index
    var pos: nat               // position of `it` within `sources[i]`
    var lastRet: bool          // `it.remove()` is allowed
    var pending: Option<E>     // the element `hasNext()` chose for delivery (`e`)
    var removable: bool

    /** `it != null` */
    predicate HasIt()
      reads this
    {
      0 <= i < |sources|
    }

    ghost predicate Valid()
      reads this
    {
      (if |sources| == 0 then i == -1 else 0 <= i <= |sources|) &&
      (HasIt() ==> pos <= |sources[i]|) &&
      (lastRet ==> HasIt() && pos > 0) &&
      (pending.Some? ==> lastRet && sources[i][pos - 1] == pending.value && accept(pending.value) && !removable) &&
      (removable ==> HasIt())
    }

    /** What is left to read: the rest of the current source and all later ones. */
    ghost function Rest(): seq<E>
      reads this
      requires Valid()
    {
      RestOf(sources, i, pos)
    }

    /** The elements the iterator will still deliver, in order. */
    ghost function Upcoming(): seq<E>
      reads this
      requires Valid()
    {
      (if pending.Some? then [pending.value] else []) + Filter(accept, Rest())
    }

    /** Both constructors: iterate over `sources` from their beginning. */
    constructor (accept: E -> bool, sources: seq<seq<E>>)
      ensures Valid()
      ensures this.accept == accept && this.sources == sources
      ensures pending.None? && !removable
      ensures Upcoming() == Filter(accept, Concat(sources))
    {
      this.accept := accept;
      this.sources := sources;
      if |sources| == 0 {
        i := -1;
      } else {
        i := 0;
      }
      pos := 0;
      lastRet := false;
      pending := None;
      removable := false;
      new;
      if |sources| > 0 {
        RestStart(sources);
      }
    }

    /** `load_next_it()`: moves to the next source; false once none is left. */
    method LoadNextIt() returns (loaded: bool)
      requires HasIt() && pending.None? && !removable
      modifies this`i, this`pos, this`lastRet
      ensures Valid()
      ensures i == old(i) + 1 && pos == 0 && !lastRet
      ensures loaded == HasIt()
    {
      i := i + 1;
      pos := 0;
      lastRet := false;
      loaded := i < |sources|;
    }

    /** `hasNext()`: with an element pending, answers true and does nothing else.
        Otherwise pulls elements, moving on source by source, up to the first
        accepted one, which becomes pending. */
    method HasNext() returns (b: bool)
      requires Valid()
      modifies this`i, this`pos, this`lastRet, this`pending, this`removable
      ensures Valid()
      ensures b == (old(Upcoming()) != [])
      ensures Upcoming() == old(Upcoming())
      ensures old(pending).Some? ==> b && unchanged(this)
      ensures old(pending).None? && !old(HasIt()) ==> !b && unchanged(this)
      ensures old(pending).None? && old(HasIt()) ==>
                !removable && old(i) <= i && (b <==> pending.Some?) &&
                PulledUpTo(accept, old(Rest()), Rest(), pending)
      ensures !b ==> !HasIt()
    {
      if pending.Some? {
        return true;
      }
      if !HasIt() {
        return false;
      }
      removable := false;
      ghost var before := RestOf(sources, i, pos);
      b := Seek();
      PulledKeepsFilter(accept, before, Rest(), pending);
    }

    /** The `while (true)` loop of `hasNext()`: pulls up to the first accepted element. */
    method Seek() returns (b: bool)
      requires Valid() && HasIt() && pending.None? && !removable
      modifies this`i, this`pos, this`lastRet, this`pending
      ensures Valid() && !removable && old(i) <= i
      ensures b == (pending.Some?) && (!b ==> !HasIt())
      ensures PulledUpTo(accept, old(RestOf(sources, i, pos)), RestOf(sources, i, pos), pending)
    {
      ghost var before := RestOf(sources, i, pos);
      ghost var seen: seq<E> := [];
      while true
        invariant Valid() && HasIt() && pending.None? && !removable
        invariant old(i) <= i && before == old(RestOf(sources, i, pos))
        invariant before == seen + RestOf(sources, i, pos) && NoneAccepted(accept, seen)
        decreases |sources| - i
      {
        b, seen := SeekRound(before, seen);
        if b {
          return;
        }
        if !HasIt() {
          ExhaustedExit(accept, before, seen);
          return;
        }
      }
    }

    /** One round of that loop: the inner `while (it.hasNext())` loop over the
        current source, up to its first accepted element, which becomes pending;
        when there is none, `load_next_it()`. `seen` holds what the scan has pulled
        and rejected so far. */
    method SeekRound(ghost before: seq<E>, ghost seen: seq<E>) returns (found: bool, ghost seen': seq<E>)
      requires Valid() && HasIt() && pending.None? && !removable
      requires before == seen + RestOf(sources, i, pos) && NoneAccepted(accept, seen)
      modifies this`i, this`pos, this`lastRet, this`pending
      ensures Valid() && !removable && found == pending.Some?
      ensures found ==> i == old(i) && HasIt() && PulledUpTo(accept, before, RestOf(sources, i, pos), pending)
      ensures !found ==> i == old(i) + 1 && before == seen' + RestOf(sources, i, pos) && NoneAccepted(accept, seen')
    {
      var p;
      p, found := FirstAccepted(accept, sources[i], pos);
      ScanOutcome(accept, sources, i, pos, p, found, before, seen);
      seen' := seen + sources[i][pos..];
      if found {
        pos, lastRet, pending := p, true, Some(sources[i][p - 1]);
      } else {
        pos, lastRet := p, lastRet || p > pos;
        var _ := LoadNextIt();
      }
    }

    /** `next()`: delivers the pending element (running `hasNext()` first when none
        is pending) and clears it, or throws `NoSuchElementException`. */
    method Next() returns (r: Result<E>)
      requires Valid()
      modifies this`i, this`pos, this`lastRet, this`pending, this`removable
      ensures Valid() && sources == old(sources) && pending.None?
      ensures old(Upcoming()) == [] ==> r == Err(NoSuchElement)
      ensures old(Upcoming()) != [] ==> r.Ok? && old(Upcoming()) == [r.value] + Upcoming()
      ensures r.Ok? ==> removable && HasIt() && lastRet && sources[i][pos - 1] == r.value
    {
      if pending.None? {
        var _ := HasNext();
      }
      if pending.Some? {
        var temp := pending.value;
        pending := None;
        removable := true;
        return Ok(temp);
      }
      return Err(NoSuchElement);
    }

    /** `remove()`: `IllegalStateException` unless `next()` delivered an element since
        the last `hasNext()`; otherwise the current source's own `remove()`, which
        drops that element or throws `IllegalStateException` when it was already
        removed. `removable` is not cleared. */
    method Remove() returns (r: Outcome)
      requires Valid()
      modifies this`sources, this`pos, this`lastRet
      ensures Valid() && Upcoming() == old(Upcoming()) && removable == old(removable)
      ensures !old(removable) || !old(lastRet) ==> r == Fail(IllegalState) && unchanged(this)
      ensures old(removable) && old(lastRet) ==>
                r == Done && i == old(i) && pos == old(pos) - 1 && !lastRet &&
                sources == old(sources)[i := old(sources[i][..pos - 1] + sources[i][pos..])]
    {
      if !removable || !lastRet {
        return Fail(IllegalState);
      }
      var l := sources[i];
      RestAfterRemove(sources, i, pos);
      sources := sources[i := l[..pos - 1] + l[pos..]];
      pos := pos - 1;
      lastRet := false;
      return Done;
    }

    /** `iterator()`: the iterator is its own iterable. */
    method Iterator() returns (r: LazyGrepIterator<E>)
      ensures r == this
    {
      r := this;
    }
  }

  /** The lazy map iterator (`LazyMapIterator`). Unlike the grep iterator it moves
      on by at most one source per call. */
  class LazyMapIterator<I, O> {
    const mapper: I -> O
    const sources: seq<seq<I>>
    var i: int
    var pos: nat

    predicate HasIt()
      reads this
    {
      0 <= i < |sources|
    }

    ghost predicate Valid()
      reads this
    {
      (if |sources| == 0 then i == -1 else 0 <= i <= |sources|) &&
      (HasIt() ==> pos <= |sources[i]|)
    }

    /** The images of the elements not yet pulled, in order. */
    ghost function Remaining(): seq<O>
      reads this
      requires Valid()
    {
      MapSeq(mapper, RestOf(sources, i, pos))
    }

    constructor (mapper: I -> O, sources: seq<seq<I>>)
      ensures Valid()
      ensures this.mapper == mapper && this.sources == sources
      ensures Remaining() == MapSeq(mapper, Concat(sources))
    {
      this.mapper := mapper;
      this.sources := sources;
      i := if |sources| == 0 then -1 else 0;
      pos := 0;
      new;
      if |sources| > 0 {
        RestStart(sources);
      }
    }

    method LoadNextIt() returns (loaded: bool)
      requires Valid() && HasIt()
      modifies this
      ensures Valid()
      ensures i == old(i) + 1 && pos == 0
      ensures loaded == HasIt()
    {
      i := i + 1;
      pos := 0;
      loaded := i < |sources|;
    }

    /** `hasNext()`: true when the current source has more; otherwise moves to the
        NEXT source only and answers whether that one has any element. */
    method HasNext() returns (b: bool)
      requires Valid()
      modifies this
      ensures Valid() && Remaining() == old(Remaining())
      ensures b == (old(HasIt()) &&
                    (old(pos) < |sources[old(i)]| || (old(i) + 1 < |sources| && sources[old(i) + 1] != [])))
      ensures old(HasIt()) && old(pos) == |sources[old(i)]| ==> i == old(i) + 1 && pos == 0
      ensures !(old(HasIt()) && old(pos) == |sources[old(i)]|) ==> unchanged(this)
      ensures b ==> HasIt() && pos < |sources[i]| && Remaining() != []
      ensures !b ==> Remaining() == [] || (0 < i < |sources| && pos == 0 && sources[i] == [])
    {
      if !HasIt() {
        return false;
      }
      if pos < |sources[i]| {
        return true;
      }
      var loaded := LoadNextIt();
      if !loaded {
        return false;
      }
      b := pos < |sources[i]|;
      if b {
      }
    }

    /** `next()`: the image of the next element of the current source, or of the
        NEXT source's first element when the current one is exhausted;
        `NoSuchElementException` when that source is missing or empty, and a
        `NullPointerException` when `it` is already null. */
    method Next() returns (r: Result<O>)
      requires Valid()
      modifies this
      ensures Valid()
      ensures !old(HasIt()) ==> r == Err(NullPointer) && unchanged(this)
      ensures old(HasIt()) && old(pos) < |sources[old(i)]| ==> i == old(i) && pos == old(pos) + 1
      ensures old(HasIt()) && old(pos) == |sources[old(i)]| ==> i == old(i) + 1 && pos == (if r.Ok? then 1 else 0)
      ensures r == Err(NoSuchElement) <==>
                old(HasIt()) && old(pos) == |sources[old(i)]| && (old(i) + 1 == |sources| || sources[old(i) + 1] == [])
      ensures old(HasIt()) && old(pos) < |sources[old(i)]| ==> r.Ok?
      ensures r.Err? ==> Remaining() == old(Remaining())
      ensures r.Ok? ==> old(Remaining()) != [] && r.value == old(Remaining())[0] &&
                        Remaining() == old(Remaining())[1..]
    {
      if !HasIt() {
        return Err(NullPointer);
      }
      ghost var rest := RestOf(sources, i, pos);
      if pos >= |sources[i]| {
        var loaded := LoadNextIt();
        if !loaded || pos >= |sources[i]| {
          return Err(NoSuchElement);
        }
      }
      assert rest == RestOf(sources, i, pos);
      var x := sources[i][pos];
      pos := pos + 1;
      MapAppend(mapper, [x], RestOf(sources, i, pos));
      return Ok(mapper(x));
    }

    /** `remove()`: always `UnsupportedOperationException`. */
    method Remove() returns (r: Outcome)
      ensures r == Fail(UnsupportedOperation)
    {
      r := Fail(UnsupportedOperation);
    }

    /** `iterator()`: the iterator is its own iterable. */
    method Iterator() returns (r: LazyMapIterator<I, O>)
      ensures r == this
    {
      r := this;
    }
  }

  /** Moving the head of what is still ahead onto what has been collected. */
  lemma CollectNext<T>(r: seq<T>, x: T, ahead: seq<T>, rest: seq<T>)
    requires ahead == [x] + rest
    ensures r + ahead == (r + [x]) + rest
  {
  }

  /** `grepLazy` drained with `next()` alone, until it throws, yields exactly
      what the eager `grep` collects. */
  method DrainGrepWithNext<E>(accept: E -> bool, sources: seq<seq<E>>) returns (r: seq<E>)
    ensures r == Filter(accept, Concat(sources))
  {
    var it := new LazyGrepIterator(accept, sources);
    r := [];
    while true
      invariant fresh(it) && it.Valid() && it.accept == accept
      invariant r + it.Upcoming() == Filter(accept, Concat(sources))
      decreases |it.Upcoming()|
    {
      ghost var upcoming := it.Upcoming();
      var x := it.Next();
      if x.Err? {
        assert r + [] == r;
        break;
      }
      assert upcoming == [x.value] + it.Upcoming();
      CollectNext(r, x.value, upcoming, it.Upcoming());
      r := r + [x.value];
    }
  }

  /** `grepLazy` drained with `hasNext()`/`next()` pairs yields the same. */
  method DrainGrepWithHasNext<E>(accept: E -> bool, sources: seq<seq<E>>) returns (r: seq<E>)
    ensures r == Filter(accept, Concat(sources))
  {
    var it := new LazyGrepIterator(accept, sources);
    r := [];
    while true
      invariant fresh(it) && it.Valid() && it.accept == accept
      invariant r + it.Upcoming() == Filter(accept, Concat(sources))
      decreases |it.Upcoming()|
    {
      var more := it.HasNext();
      if !more {
        assert r + [] == r;
        break;
      }
      ghost var upcoming := it.Upcoming();
      var x := it.Next();
      assert upcoming == [x.value] + it.Upcoming();
      CollectNext(r, x.value, upcoming, it.Upcoming());
      r := r + [x.value];
    }
  }

  /** `mapLazy` drained with `hasNext()`/`next()` pairs yields a prefix of the
      eager `map`, and all of it when no source after the first is empty. */
  method DrainMap<I, O>(mapper: I -> O, sources: seq<seq<I>>) returns (r: seq<O>)
    ensures r <= MapSeq(mapper, Concat(sources))
    ensures (forall k :: 0 < k < |sources| ==> sources[k] != []) ==> r == MapSeq(mapper, Concat(sources))
  {
    var it := new LazyMapIterator(mapper, sources);
    r := [];
    while true
      invariant fresh(it) && it.Valid() && it.mapper == mapper && it.sources == sources
      invariant r + it.Remaining() == MapSeq(mapper, Concat(sources))
      decreases |it.Remaining()|
    {
      var more := it.HasNext();
      if !more {
        assert r + [] == r;
        break;
      }
      ghost var remaining := it.Remaining();
      var x := it.Next();
      assert remaining == [x.value] + it.Remaining();
      CollectNext(r, x.value, remaining, it.Remaining());
      r := r + [x.value];
    }
  }

  /** Over `[[1], [], [2]]`, once `1` is delivered `hasNext()` answers false and
      `next()` throws although `2` is still ahead; a repeated `hasNext()` then
      answers true and `next()` delivers `2`. */
  method MapStopsAtEmptySource() returns (first: bool, thrown: Result<int>, again: bool, second: Result<int>)
    ensures first == false && thrown == Err(NoSuchElement)
    ensures again == true && second == Ok(2)
  {
    var it := new LazyMapIterator((x: int) => x, [[1], [], [2]]);
    var one := it.Next();
    first := it.HasNext();
    var it2 := new LazyMapIterator((x: int) => x, [[1], [], [2]]);
    one := it2.Next();
    thrown := it2.Next();
    again := it2.HasNext();
    second := it2.Next();
  }
}
