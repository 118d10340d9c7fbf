/** `org.tbull.util.CharSequenceReader`: a `java.io.Reader` over a character
    sequence, with a read position, a mark and an "immutable" flag that gates
    mark/reset. The backing sequence is taken as fixed for the reader's lifetime. */
module CharSequenceReading {
  import opened JavaLang

  /** The runtime class of the backing sequence; only `String` matters to the
      reader's behaviour (it starts immutable). */
  datatype Backend = StringBackend | StringBuilderBackend | StringBufferBackend | OtherBackend

  class CharSequenceReader {
    const cs: JString
    var immutable: bool
    var position: int
    var mark: int

    ghost predicate Valid()
      reads this
    {
      |cs| <= MAX_INT && 0 <= position <= |cs| && 0 <= mark <= |cs|
    }

    /** Starts at position 0 with the mark at 0; immutable exactly for a `String`. */
    constructor (cs: JString, backend: Backend)
      requires |cs| <= MAX_INT
      ensures Valid() && this.cs == cs
      ensures position == 0 && mark == 0
      ensures immutable <==> backend == StringBackend
    {
      this.cs := cs;
      immutable := backend == StringBackend;
      position := 0;
      mark := 0;
    }

    method SetImmutable(immutable: bool)
      modifies this
      ensures this.immutable == immutable && position == old(position) && mark == old(mark)
    {
      this.immutable := immutable;
    }

    function Length(): (n: int)
      reads this
      ensures n == |cs|
    {
      |cs|
    }

    function Remaining(): (n: int)
      reads this
      requires Valid()
      ensures n == |cs| - position && 0 <= n <= |cs|
    {
      |cs| - position
    }

    function MarkSupported(): (b: bool)
      reads this
      ensures b == immutable
    {
      immutable
    }

    /** `mark(readAheadLimit)`: remembers the position; `IOException` unless immutable. */
    method Mark() returns (r: Outcome)
      requires Valid()
      modifies this
      ensures Valid() && immutable == old(immutable) && position == old(position)
      ensures immutable ==> r == Done && mark == position
      ensures !immutable ==> r == Fail(IOError) && mark == old(mark)
    {
      if !immutable {
        return Fail(IOError);
      }
      mark := position;
      return Done;
    }

    /** `reset()`: back to the mark, which stays set; `IOException` unless immutable. */
    method Reset() returns (r: Outcome)
      requires Valid()
      modifies this
      ensures Valid() && immutable == old(immutable) && mark == old(mark)
      ensures immutable ==> r == Done && position == mark
      ensures !immutable ==> r == Fail(IOError) && position == old(position)
    {
      if !immutable {
        return Fail(IOError);
      }
      position := mark;
      return Done;
    }

    /** `read()`: the char at the position, moving past it, or -1 at the end. */
    method Read() returns (c: int)
      requires Valid()
      modifies this
      ensures Valid() && immutable == old(immutable) && mark == old(mark)
      ensures old(position) < |cs| ==> c == cs[old(position)] as int && position == old(position) + 1
      ensures old(position) == |cs| ==> c == -1 && position == old(position)
    {
      if position < |cs| {
        c := cs[position] as int;
        position := position + 1;
      } else {
        c := -1;
      }
    }

    /** `read(cbuf, off, len)`: copies up to `len` chars into `cbuf[off..]` and
        answers how many, -1 at the end and 0 when `len` is 0. The bounds check
        comes first and its `off + len` wraps as a Java `int` sum. The copy is
        clamped to the chars remaining, as intended; where the clamp's own
        `position + len` wraps, the code as written throws instead (`ReadAsWritten`). */
    method ReadInto(cbuf: array<JChar>, off: int, len: int) returns (r: Result<int>)
      requires Valid() && IsInt32(off) && IsInt32(len) && cbuf.Length <= MAX_INT
      modifies this, cbuf
      ensures Valid() && immutable == old(immutable) && mark == old(mark)
      ensures r == Err(IndexOutOfBounds) <==> off < 0 || len < 0 || off + len > cbuf.Length
      ensures r.Err? ==> r == Err(IndexOutOfBounds)
      ensures r.Err? || len == 0 || old(position) == |cs| ==> position == old(position) && cbuf[..] == old(cbuf[..])
      ensures r.Ok? && len == 0 ==> r.value == 0
      ensures r.Ok? && len > 0 && old(position) == |cs| ==> r.value == -1
      ensures r.Ok? && len > 0 && old(position) < |cs| ==>
                var k := if len < |cs| - old(position) then len else |cs| - old(position);
                r.value == k && 0 < k && position == old(position) + k &&
                forall t :: 0 <= t < cbuf.Length ==>
                  cbuf[t] == if off <= t < off + k then cs[old(position) + t - off] else old(cbuf[t])
    {
      if off >= 0 && len >= 0 {
        NonNegativeSumWrap(off, len);
      }
      if off < 0 || len < 0 || ToInt32(off + len) < 0 || ToInt32(off + len) > cbuf.Length {
        return Err(IndexOutOfBounds);
      }
      if len == 0 {
        return Ok(0);
      }
      var cslen := |cs|;
      if position >= cslen {
        return Ok(-1);
      }
      var count := len;
      if position + count > cslen {
        count := cslen - position;
      }
      // the char-by-char path; the String/StringBuilder/StringBuffer paths copy the same chars
      // whenever the clamp's sum does not wrap
      var n, i := count, 0;
      while i < n
        invariant 0 <= i <= n && position == old(position) + i && old(position) + n <= |cs|
        invariant immutable == old(immutable) && mark == old(mark)
        invariant forall t :: 0 <= t < cbuf.Length ==>
                    cbuf[t] == if off <= t < off + i then cs[old(position) + t - off] else old(cbuf[t])
      {
        cbuf[off + i] := cs[position];
        position := position + 1;
        i := i + 1;
      }
      return Ok(n);
    }

    /** `read(cbuf)`: `read(cbuf, 0, cbuf.length)`. */
    method ReadArray(cbuf: array<JChar>) returns (r: Result<int>)
      requires Valid() && cbuf.Length <= MAX_INT
      modifies this, cbuf
      ensures Valid() && r.Ok? && immutable == old(immutable) && mark == old(mark)
      ensures cbuf.Length == 0 || old(position) == |cs| ==> position == old(position) && cbuf[..] == old(cbuf[..])
      ensures cbuf.Length == 0 ==> r.value == 0
      ensures cbuf.Length > 0 && old(position) == |cs| ==> r.value == -1
      ensures cbuf.Length > 0 && old(position) < |cs| ==>
                var k := if cbuf.Length < |cs| - old(position) then cbuf.Length else |cs| - old(position);
                r.value == k && position == old(position) + k &&
                cbuf[..k] == cs[old(position)..position] && cbuf[k..] == old(cbuf[k..])
    {
      r := ReadInto(cbuf, 0, cbuf.Length);
      if r.Ok? && cbuf.Length > 0 && old(position) < |cs| {
        var k := r.value;
        assert forall t :: 0 <= t < k ==> cbuf[..k][t] == cs[old(position)..position][t];
      }
    }

    /** `skip(n)`: moves ahead by `n` chars, or to the end if fewer remain, and
        answers the distance; `IllegalArgumentException` for a negative `n`. */
    method Skip(n: int) returns (r: Result<int>)
      requires Valid()
      modifies this
      ensures Valid() && immutable == old(immutable) && mark == old(mark)
      ensures n < 0 ==> r == Err(IllegalArgument) && position == old(position)
      ensures n >= 0 ==>
                var k := if n < |cs| - old(position) then n else |cs| - old(position);
                r == Ok(k) && position == old(position) + k
    {
      if n < 0 {
        return Err(IllegalArgument);
      }
      if n == 0 {
        return Ok(0);
      }
      var max := |cs| - position;
      var count := n;
      if count > max {
        count := max;
      }
      position := position + count;
      return Ok(count);
    }
  }

  /** How `read(cbuf, off, len)` ends once the destination check has passed,
      `len > 0` and `position < cslen`: it copies `count` chars, or it throws
      `IndexOutOfBoundsException` after writing `written` chars and leaving the
      position at `position`. */
  datatype BulkRead = Copied(count: int) | ThrownAfter(written: int, position: int)

  /** The bulk read as written: the clamp tests `position + len > cslen` on a
      wrapping `int` sum, so for `position + len` beyond `Integer.MAX_VALUE` it
      keeps `len`. The `String`, `StringBuilder` and `StringBuffer` paths then call
      `getChars` with a negative end and throw before copying; the char-by-char
      loop copies up to the end of the sequence and throws in `charAt`, its
      `position++` having run once more. */
  function ReadAsWritten(backend: Backend, cslen: int, position: int, len: int): (r: BulkRead)
    requires 0 <= position < cslen <= MAX_INT && 0 < len <= MAX_INT
    ensures r.Copied? <==> position + len <= MAX_INT
    ensures r.Copied? ==> r.count == if len < cslen - position then len else cslen - position
    ensures r.ThrownAfter? && backend != OtherBackend ==> r.written == 0 && r.position == position
    ensures r.ThrownAfter? && backend == OtherBackend ==>
              r.written == cslen - position && r.position == ToInt32(cslen + 1)
  {
    var n := if ToInt32(position + len) > cslen then cslen - position else len;
    if position + n <= cslen then Copied(n)
    else if backend != OtherBackend then ThrownAfter(0, position)
    else ThrownAfter(cslen - position, ToInt32(cslen + 1))
  }

  /** A sequence of 2^31 - 2 chars read at 2^31 - 3 into a 3-char array: the code
      as written throws where the clamped read returns the one remaining char. */
  lemma ReadPastMaxIntThrows()
    ensures ReadAsWritten(StringBackend, MAX_INT - 1, MAX_INT - 2, 3) == ThrownAfter(0, MAX_INT - 2)
    ensures ReadAsWritten(OtherBackend, MAX_INT - 1, MAX_INT - 2, 3) == ThrownAfter(1, MAX_INT)
  {
  }

  /** Reading a fresh reader char by char to the end gives back the sequence. */
  method ReadAllChars(cs: JString, backend: Backend) returns (r: JString)
    requires |cs| <= MAX_INT
    ensures r == cs
  {
    var reader := new CharSequenceReader(cs, backend);
    r := [];
    while true
      invariant fresh(reader) && reader.Valid() && reader.cs == cs
      invariant r == cs[..reader.position]
      decreases |cs| - reader.position
    {
      var c := reader.Read();
      if c == -1 {
        break;
      }
      r := r + [c as JChar];
      assert cs[..reader.position] == cs[..reader.position - 1] + [cs[reader.position - 1]];
    }
    assert cs[..|cs|] == cs;
  }
}
