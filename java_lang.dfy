/** Shared vocabulary for the model: Java's 16-bit chars and strings, the exception
    kinds the modelled classes throw, and a mutable list object standing for a
    caller-supplied java.util.List. */
module JavaLang {

  /** A Java `char`: one UTF-16 code unit (surrogates included). */
  newtype JChar = x: int | 0 <= x < 0x1_0000

  /** A Java `String` / `CharSequence` value. */
  type JString = seq<JChar>

  const MIN_INT: int := -0x8000_0000
  const MAX_INT: int := 0x7FFF_FFFF

  predicate IsInt32(x: int) { MIN_INT <= x <= MAX_INT }

  /** Java's narrowing of an integer to 32-bit two's complement (wrap-around). */
  function ToInt32(x: int): (r: int)
    ensures IsInt32(r)
    ensures IsInt32(x) ==> r == x
    ensures (r - x) % 0x1_0000_0000 == 0
  {
    (x - MIN_INT) % 0x1_0000_0000 + MIN_INT
  }

  /** A Java `int` value. */
  newtype JInt = x: int | -0x8000_0000 <= x < 0x8000_0000

  /** Java's `int` addition, which wraps around: a sum of two `int`s is off the
      range by less than 2^32. */
  function AddInt(a: JInt, b: JInt): JInt
  {
    var x := a as int + b as int;
    if x > MAX_INT then (x - 0x1_0000_0000) as JInt
    else if x < MIN_INT then (x + 0x1_0000_0000) as JInt
    else x as JInt
  }

  /** `int` addition is the mathematical sum narrowed to 32 bits. */
  lemma AddIntNarrows(a: JInt, b: JInt)
    ensures AddInt(a, b) as int == ToInt32(a as int + b as int)
  {
    var x := a as int + b as int;
    if x > MAX_INT {
      assert (x - MIN_INT) % 0x1_0000_0000 == x - MIN_INT - 0x1_0000_0000;
    } else if x < MIN_INT {
      assert (x - MIN_INT) % 0x1_0000_0000 == x - MIN_INT + 0x1_0000_0000;
    }
  }

  /** `int` addition is associative despite the wrap-around. */
  lemma AddIntAssociative(a: JInt, b: JInt, c: JInt)
    ensures AddInt(AddInt(a, b), c) == AddInt(a, AddInt(b, c))
  {
  }

  /** The sum of two non-negative `int`s wraps to a negative `int` exactly when
      it exceeds `Integer.MAX_VALUE`; Java code tests for overflow this way. */
  lemma NonNegativeSumWrap(a: int, b: int)
    requires IsInt32(a) && IsInt32(b) && 0 <= a && 0 <= b
    ensures ToInt32(a + b) < 0 <==> a + b > MAX_INT
    ensures a + b <= MAX_INT ==> ToInt32(a + b) == a + b
  {
    if a + b > MAX_INT {
      assert (a + b - MIN_INT) % 0x1_0000_0000 == a + b - MIN_INT - 0x1_0000_0000;
    }
  }

  /** Java's `(byte)` narrowing cast. */
  function ToByte(x: int): (r: int)
    ensures -128 <= r < 128
    ensures -128 <= x < 128 ==> r == x
    ensures (r - x) % 256 == 0
  {
    (x + 128) % 256 - 128
  }

  /** Java's `(char)` narrowing cast of an int: keeps the low 16 bits. */
  function ToJChar(x: int): (c: JChar)
    ensures 0 <= x < 0x1_0000 ==> c as int == x
    ensures (c as int - x) % 0x1_0000 == 0
  {
    (x % 0x1_0000) as JChar
  }

  /** Turns a Dafny string literal of plain ASCII characters into a Java string. */
  function Ascii(s: string): (r: JString)
    requires forall k :: 0 <= k < |s| ==> s[k] as int < 128
    ensures |r| == |s|
    ensures forall k :: 0 <= k < |s| ==> r[k] as int == s[k] as int
  {
    if s == [] then [] else [s[0] as int as JChar] + Ascii(s[1..])
  }

  /** The exception kinds thrown by the modelled classes. */
  datatype Exception =
    | NoSuchElement         // java.util.NoSuchElementException
    | IllegalState          // java.lang.IllegalStateException
    | UnsupportedOperation  // java.lang.UnsupportedOperationException
    | IndexOutOfBounds      // java.lang.IndexOutOfBoundsException and its subclasses
    | IllegalArgument       // java.lang.IllegalArgumentException and NumberFormatException
    | NullPointer           // java.lang.NullPointerException
    | IOError               // java.io.IOException
    | NegativeArraySize     // java.lang.NegativeArraySizeException
    | ConcurrentModification // java.util.ConcurrentModificationException

  /** Either a normal return value or the exception thrown instead. */
  datatype Result<+T> = Ok(value: T) | Err(error: Exception)

  /** Outcome of a `void` method: normal completion or an exception. */
  datatype Outcome = Done | Fail(error: Exception)

  datatype Option<+T> = None | Some(value: T)

  /** A caller-owned `java.util.List` that the eager operations append to in place. */
  class List<T> {
    var elements: seq<T>

    constructor ()
      ensures elements == []
    {
      elements := [];
    }

    /** `List.add`: appends one element at the end. */
    method Add(x: T)
      modifies this
      ensures elements == old(elements) + [x]
    {
      elements := elements + [x];
    }
  }
}
