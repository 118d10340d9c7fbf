/** `org.tbull.util.StringBuilderWriter`: a `java.io.Writer` that appends to a
    `StringBuilder` and is itself a `CharSequence` over what it accumulated. */
module StringBuilderWriting {
  import opened JavaLang
  import opened CollectionsSpec

  /** The part of `java.lang.StringBuilder` the writer uses: its characters. */
  class StringBuilder {
    var chars: JString

    constructor (initial: JString)
      ensures chars == initial
    {
      chars := initial;
    }
  }

  const NULL_TEXT: JString := Ascii("null")

  /** `s.substring(begin, end)`, with Java's exceptions. */
  function Substring(s: JString, begin: int, end: int): (r: Result<JString>)
    ensures r.Err? <==> begin < 0 || end > |s| || begin > end
    ensures r.Err? ==> r.error == IndexOutOfBounds
    ensures r.Ok? ==> |r.value| == end - begin && forall k :: 0 <= k < |r.value| ==> r.value[k] == s[begin + k]
  {
    if begin < 0 || end > |s| || begin > end then Err(IndexOutOfBounds) else Ok(s[begin..end])
  }

  class StringBuilderWriter {
    const sb: StringBuilder

    /** `StringBuilderWriter()`: a fresh, empty builder. */
    constructor ()
      ensures fresh(sb) && sb.chars == []
    {
      sb := new StringBuilder([]);
    }

    /** `StringBuilderWriter(StringBuilder)`: writes go to the end of `sb`, whose
        contents are kept. */
    constructor WithBuilder(sb: StringBuilder)
      ensures this.sb == sb && sb.chars == old(sb.chars)
    {
      this.sb := sb;
    }

    function GetBuilder(): (r: StringBuilder)
      reads this
      ensures r == sb
    {
      sb
    }

    function CharAt(index: int): (r: Result<JChar>)
      reads this, sb
      ensures r.Err? <==> index < 0 || index >= |sb.chars|
      ensures r.Err? ==> r.error == IndexOutOfBounds
      ensures r.Ok? ==> r.value == sb.chars[index]
    {
      if 0 <= index < |sb.chars| then Ok(sb.chars[index]) else Err(IndexOutOfBounds)
    }

    function Length(): (n: nat)
      reads this, sb
      ensures n == |sb.chars|
    {
      |sb.chars|
    }

    function SubSequence(start: int, end: int): (r: Result<JString>)
      reads this, sb
      ensures r.Err? <==> start < 0 || end > |sb.chars| || start > end
      ensures r.Ok? ==> r.value == sb.chars[start..end]
    {
      Substring(sb.chars, start, end)
    }

    function ToString(): (s: JString)
      reads this, sb
      ensures |s| == Length() && forall k :: 0 <= k < |s| ==> CharAt(k) == Ok(s[k])
    {
      sb.chars
    }

    method AppendChar(c: JChar) returns (r: StringBuilderWriter)
      modifies sb
      ensures r == this && sb.chars == old(sb.chars) + [c]
    {
      sb.chars := sb.chars + [c];
      r := this;
    }

    /** `append(csq, start, end)`: `csq[start..end)`; for a null `csq` it is
        `write("null", start, end)`, which reads `end` as a length. */
    method AppendRange(csq: Option<JString>, start: int, end: int) returns (r: Result<StringBuilderWriter>)
      requires IsInt32(start) && IsInt32(end)
      modifies sb
      ensures csq.Some? ==> (r.Err? <==> start < 0 || start > end || end > |csq.value|)
      ensures csq.None? ==> (r.Err? <==> start < 0 || end < 0 || start + end > |NULL_TEXT|)
      ensures r.Err? ==> r == Err(IndexOutOfBounds) && sb.chars == old(sb.chars)
      ensures r.Ok? ==> r.value == this
      ensures r.Ok? && csq.Some? ==> sb.chars == old(sb.chars) + csq.value[start..end]
      ensures r.Ok? && csq.None? ==> sb.chars == old(sb.chars) + NULL_TEXT[start..start + end]
    {
      if csq.None? {
        var w := WriteRange(NULL_TEXT, start, end);
        if w.Fail? {
          return Err(IndexOutOfBounds);
        }
      } else {
        var s := csq.value;
        if start < 0 || start > end || end > |s| {
          return Err(IndexOutOfBounds);
        }
        sb.chars := sb.chars + s[start..end];
      }
      return Ok(this);
    }

    /** `append(csq)`: the whole of `csq`, or "null" for a null `csq`. */
    method Append(csq: Option<JString>) returns (r: StringBuilderWriter)
      modifies sb
      ensures r == this
      ensures sb.chars == old(sb.chars) + (if csq.Some? then csq.value else NULL_TEXT)
    {
      sb.chars := sb.chars + (if csq.None? then NULL_TEXT else csq.value);
      r := this;
    }

    /** `write(int)`: one char, the low 16 bits of `c`. */
    method WriteInt(c: int)
      requires IsInt32(c)
      modifies sb
      ensures |sb.chars| == |old(sb.chars)| + 1 && sb.chars[..|old(sb.chars)|] == old(sb.chars)
      ensures sb.chars[|sb.chars| - 1] as int == c % 0x1_0000
    {
      sb.chars := sb.chars + [ToJChar(c)];
    }

    /** `write(cbuf, off, len)`: `len` chars of `cbuf` from `off`. */
    method WriteChars(cbuf: array<JChar>, off: int, len: int) returns (r: Outcome)
      requires IsInt32(off) && IsInt32(len)
      modifies sb
      ensures r.Fail? <==> off < 0 || len < 0 || off + len > cbuf.Length
      ensures r.Fail? ==> r.error == IndexOutOfBounds && sb.chars == old(sb.chars)
      ensures r.Done? ==> sb.chars == old(sb.chars) + cbuf[off..off + len]
    {
      if off < 0 || len < 0 || off > cbuf.Length - len {
        return Fail(IndexOutOfBounds);
      }
      sb.chars := sb.chars + cbuf[off..off + len];
      return Done;
    }

    /** `write(str)`: the whole string; `StringBuilder.append` writes "null" for null. */
    method Write(str: Option<JString>)
      modifies sb
      ensures sb.chars == old(sb.chars) + (if str.Some? then str.value else NULL_TEXT)
    {
      sb.chars := sb.chars + (if str.None? then NULL_TEXT else str.value);
    }

    /** `write(str, off, len)`: `str.substring(off, off + len)`, whose end index is
        a wrapping `int` sum. */
    method WriteRange(str: JString, off: int, len: int) returns (r: Outcome)
      requires IsInt32(off) && IsInt32(len) && |str| <= MAX_INT
      modifies sb
      ensures r.Fail? <==> off < 0 || len < 0 || off + len > |str|
      ensures r.Fail? ==> r.error == IndexOutOfBounds && sb.chars == old(sb.chars)
      ensures r.Done? ==> sb.chars == old(sb.chars) + str[off..off + len]
    {
      var end := ToInt32(off + len);
      if 0 <= off && 0 <= len {
        NonNegativeSumWrap(off, len);
      } else if 0 <= off && IsInt32(off + len) {
        assert end == off + len;
      }
      var sub := Substring(str, off, end);
      if sub.Err? {
        return Fail(IndexOutOfBounds);
      }
      sb.chars := sb.chars + sub.value;
      return Done;
    }

    /** `close()` and `flush()` do nothing. */
    method Close()
      ensures unchanged(sb)
    {
    }

    method Flush()
      ensures unchanged(sb)
    {
    }
  }

  /** `StringBuilderWriter(int)`: `IllegalArgumentException` for a capacity of 0 or
      less; capacity is not otherwise observable. */
  method WithCapacity(initialCapacity: int) returns (r: Result<StringBuilderWriter>)
    requires IsInt32(initialCapacity)
    ensures r.Err? <==> initialCapacity <= 0
    ensures r.Err? ==> r.error == IllegalArgument
    ensures r.Ok? ==> fresh(r.value) && fresh(r.value.sb) && r.value.sb.chars == []
  {
    if initialCapacity <= 0 {
      return Err(IllegalArgument);
    }
    var w := new StringBuilderWriter();
    return Ok(w);
  }

  /** Writing pieces one after another into a fresh writer accumulates exactly
      their concatenation. */
  method WriteAll(pieces: seq<JString>) returns (s: JString)
    ensures s == Concat(pieces)
  {
    var w := new StringBuilderWriter();
    var k := 0;
    while k < |pieces|
      invariant 0 <= k <= |pieces| && fresh(w.sb)
      invariant w.sb.chars == Concat(pieces[..k])
    {
      w.Write(Some(pieces[k]));
      ConcatSnoc(pieces, k);
      k := k + 1;
    }
    assert pieces[..k] == pieces;
    s := w.ToString();
  }
}
