/** `org.tbull.util.dev.IndentableLineBuffer`: a buffer of individually indentable
    lines, rendered with a base indent level added to every line's own level.

    A line (`IndentableLine`) is a value here: the buffer's methods replace lines
    instead of updating shared line objects, and where the Java code leaves one line
    object reachable from two places (the current line and the last line, a line
    taken over from another buffer) the model updates both places alike. Indent
    levels are Java `int`s and their sums wrap around. */
module LineBuffer {
  import opened JavaLang

  /** `IndentableLine`: the line's individual indent level and its text. */
  datatype Line = Line(level: JInt, text: JString)

  /** How often the indentation string precedes a line on rendering: the resulting
      level, base plus individual level in `int` arithmetic, or none when that is
      negative. */
  function Indents(base: JInt, level: JInt): nat
  {
    var n := AddInt(base, level);
    if n < 0 then 0 else n as int
  }

  /** `s` repeated `n` times. */
  function Repeat(s: JString, n: nat): JString
  {
    if n == 0 then [] else Repeat(s, n - 1) + s
  }

  /** One line as `toString` renders it: the indentation, the text, the separator. */
  function RenderLine(base: JInt, indentation: JString, sep: JString, l: Line): JString
  {
    Repeat(indentation, Indents(base, l.level)) + l.text + sep
  }

  /** The rendering of `lines`, one after the other; every line ends with `sep`. */
  function RenderLines(base: JInt, indentation: JString, sep: JString, lines: seq<Line>): JString
  {
    if lines == [] then []
    else RenderLines(base, indentation, sep, lines[..|lines| - 1]) + RenderLine(base, indentation, sep, lines[|lines| - 1])
  }

  /** Rendering goes line by line: the rendering of two runs of lines is the
      rendering of the first followed by that of the second. */
  lemma {:induction false} RenderConcat(base: JInt, indentation: JString, sep: JString, a: seq<Line>, b: seq<Line>)
    ensures RenderLines(base, indentation, sep, a + b) ==
            RenderLines(base, indentation, sep, a) + RenderLines(base, indentation, sep, b)
    decreases |b|
  {
    if b == [] {
      assert a + b == a;
    } else {
      var init, last := b[..|b| - 1], b[|b| - 1];
      RenderConcat(base, indentation, sep, a, init);
      assert a + b == (a + init) + [last];
      RenderSnoc(base, indentation, sep, a + init, last);
      ConcatStep(RenderLines(base, indentation, sep, a), RenderLines(base, indentation, sep, init),
                 RenderLines(base, indentation, sep, a + init), RenderLine(base, indentation, sep, last));
    }
  }

  /** Concatenation regrouped for one more rendered line. */
  lemma ConcatStep(ra: JString, rinit: JString, rjoined: JString, rlast: JString)
    requires rjoined == ra + rinit
    ensures rjoined + rlast == ra + (rinit + rlast)
  {
  }

  /** `l` with `k` added to its individual level. */
  function Shift(l: Line, k: JInt): Line
  {
    l.(level := AddInt(l.level, k))
  }

  /** `lines`, each with `k` added to its individual level. */
  function Shifted(lines: seq<Line>, k: JInt): (r: seq<Line>)
    ensures |r| == |lines|
  {
    if lines == [] then []
    else Shifted(lines[..|lines| - 1], k) + [Shift(lines[|lines| - 1], k)]
  }

  /** Shifting keeps every line's text and adds `k` to its individual level. */
  lemma {:induction false} ShiftedLines(lines: seq<Line>, k: JInt)
    ensures forall j :: 0 <= j < |lines| ==>
              Shifted(lines, k)[j] == Line(AddInt(lines[j].level, k), lines[j].text)
  {
    if lines != [] {
      ShiftedLines(lines[..|lines| - 1], k);
    }
  }

  /** Raising the base level by `k` (`indent`) and raising every line's own level
      by `k` (`indentExisting`) render the same: the resulting levels agree even
      where the `int` sums wrap around. */
  lemma {:induction false} ShiftedRender(base: JInt, indentation: JString, sep: JString, lines: seq<Line>, k: JInt)
    ensures RenderLines(base, indentation, sep, Shifted(lines, k)) == RenderLines(AddInt(base, k), indentation, sep, lines)
  {
    if lines != [] {
      var n := |lines| - 1;
      ShiftedRender(base, indentation, sep, lines[..n], k);
      var s := Shifted(lines, k);
      assert s[..n] == Shifted(lines[..n], k) && s[n] == Shift(lines[n], k);
      AddIntAssociative(base, lines[n].level, k);
      AddIntAssociative(base, k, lines[n].level);
      assert AddInt(lines[n].level, k) == AddInt(k, lines[n].level);
    }
  }

  /** A buffer merged by `addLines` keeps its rendering: its lines absorb its base
      level, which becomes 0. */
  lemma MergedRenderKept(base: JInt, indentation: JString, sep: JString, lines: seq<Line>)
    ensures RenderLines(0, indentation, sep, Shifted(lines, base)) == RenderLines(base, indentation, sep, lines)
  {
    ShiftedRender(0, indentation, sep, lines, base);
  }

  /** Each line taken over by `addLines` ends up at this buffer's base plus the other
      buffer's base plus its former individual level. */
  lemma MovedLineLevel(thisBase: JInt, otherBase: JInt, lines: seq<Line>, j: nat)
    requires j < |lines|
    ensures AddInt(thisBase, Shifted(lines, otherBase)[j].level) ==
            AddInt(AddInt(thisBase, otherBase), lines[j].level)
  {
    ShiftedLines(lines, otherBase);
    AddIntAssociative(thisBase, lines[j].level, otherBase);
    AddIntAssociative(thisBase, otherBase, lines[j].level);
    assert AddInt(lines[j].level, otherBase) == AddInt(otherBase, lines[j].level);
  }

  /** The lines after appending `s` to the current line: a first line with the
      default level when there is none, otherwise the last line's text extended. */
  function WithAppended(lines: seq<Line>, s: JString, defaultLevel: JInt): seq<Line>
  {
    if lines == [] then [Line(defaultLevel, s)]
    else lines[..|lines| - 1] + [lines[|lines| - 1].(text := lines[|lines| - 1].text + s)]
  }

  /** The rendering of `lines` up to the last line's separator. */
  function OpenRender(base: JInt, indentation: JString, sep: JString, lines: seq<Line>): JString
    requires lines != []
  {
    var n := |lines| - 1;
    RenderLines(base, indentation, sep, lines[..n]) + Repeat(indentation, Indents(base, lines[n].level)) + lines[n].text
  }

  /** A rendering of lines ends with the separator. */
  lemma ClosedRender(base: JInt, indentation: JString, sep: JString, lines: seq<Line>)
    requires lines != []
    ensures RenderLines(base, indentation, sep, lines) == OpenRender(base, indentation, sep, lines) + sep
  {
  }

  /** Appending to the last line extends the open rendering. */
  lemma AppendedOpen(base: JInt, indentation: JString, sep: JString, lines: seq<Line>, s: JString, defaultLevel: JInt)
    requires lines != []
    ensures RenderLines(base, indentation, sep, WithAppended(lines, s, defaultLevel)) ==
            OpenRender(base, indentation, sep, lines) + s + sep
  {
    var n := |lines| - 1;
    RenderSnoc(base, indentation, sep, lines[..n], lines[n].(text := lines[n].text + s));
  }

  /** Appending to a non-empty buffer inserts `s` just before the final separator
      and changes nothing else of the rendering. */
  lemma AppendRender(base: JInt, indentation: JString, sep: JString, lines: seq<Line>, s: JString, defaultLevel: JInt)
    requires lines != []
    ensures |RenderLines(base, indentation, sep, lines)| >= |sep|
    ensures RenderLines(base, indentation, sep, WithAppended(lines, s, defaultLevel)) ==
            RenderLines(base, indentation, sep, lines)[..|RenderLines(base, indentation, sep, lines)| - |sep|] + s + sep
  {
    ClosedRender(base, indentation, sep, lines);
    AppendedOpen(base, indentation, sep, lines, s, defaultLevel);
    InsertBeforeEnd(RenderLines(base, indentation, sep, lines), RenderLines(base, indentation, sep, WithAppended(lines, s, defaultLevel)),
                    OpenRender(base, indentation, sep, lines), s, sep);
  }

  /** Text inserted just before a final separator. */
  lemma InsertBeforeEnd(before: JString, after: JString, open: JString, s: JString, sep: JString)
    requires before == open + sep && after == open + s + sep
    ensures |before| >= |sep| && after == before[..|before| - |sep|] + s + sep
  {
    assert before[..|before| - |sep|] == open;
  }

  /** The rendering of one more line at the end. */
  lemma RenderSnoc(base: JInt, indentation: JString, sep: JString, init: seq<Line>, l: Line)
    ensures RenderLines(base, indentation, sep, init + [l]) ==
            RenderLines(base, indentation, sep, init) + RenderLine(base, indentation, sep, l)
  {
    assert (init + [l])[..|init|] == init;
  }

  /** One step of shifting a run of lines in place, front to back. */
  lemma ShiftedStep(lines: seq<Line>, j: nat, k: JInt)
    requires j < |lines|
    ensures Shifted(lines[..j + 1], k) == Shifted(lines[..j], k) + [Shift(lines[j], k)]
    ensures (Shifted(lines[..j], k) + lines[j..])[j := Shift(lines[j], k)] == Shifted(lines[..j + 1], k) + lines[j + 1..]
  {
    assert lines[..j + 1][..j] == lines[..j];
    assert lines[j..] == [lines[j]] + lines[j + 1..];
  }

  /** The loop of `addLines`: raises each of `theirs` by `k` in place and appends it
      to `mine`. */
  method TakeOverLines(mine: seq<Line>, theirs: seq<Line>, k: JInt) returns (joined: seq<Line>, taken: seq<Line>)
    ensures taken == Shifted(theirs, k) && joined == mine + taken
  {
    joined, taken := mine, theirs;
    var j := 0;
    while j < |taken|
      invariant |taken| == |theirs| && 0 <= j <= |theirs|
      invariant taken == Shifted(theirs[..j], k) + theirs[j..]
      invariant joined == mine + Shifted(theirs[..j], k)
    {
      ShiftedStep(theirs, j, k);
      var l := Shift(taken[j], k);
      taken := taken[j := l];
      joined := joined + [l];
      j := j + 1;
    }
    assert theirs[..j] == theirs;
  }

  /** The inner loop of `toString`: appends `s` to `done` once per level up to `n`,
      no times at all when `n` is not positive. */
  method RepeatInto(done: JString, s: JString, n: JInt) returns (r: JString)
    ensures r == done + Repeat(s, if n < 0 then 0 else n as int)
  {
    r := done;
    var j: JInt := 0;
    while j < n
      invariant 0 <= j && (j <= n || j == 0)
      invariant r == done + Repeat(s, j as int)
    {
      r := r + s;
      j := j + 1;
    }
  }

  /** `IndentableLineBuffer`. */
  class IndentableLineBuffer {
    var lines: seq<Line>
    var current: Option<Line>      // `current_line`; `None` is null
    var base: JInt                 // `base_indent`
    var defaultLevel: JInt         // `default_line_indent`
    var indentation: JString
    var lineSeparator: JString

    /** The current line is the last line whenever there are lines. With none it
        is null or a line that has left the buffer (see `AppendLines`). */
    ghost predicate Valid()
      reads this
    {
      lines != [] ==> current == Some(lines[|lines| - 1])
    }

    /** What `toString` returns. */
    ghost function Render(): JString
      reads this
    {
      RenderLines(base, indentation, lineSeparator, lines)
    }

    /** `IndentableLineBuffer()`: no lines, base and default level 0, four spaces
        per level. `lineSeparator` stands for the `line.separator` system property. */
    constructor (lineSeparator: JString)
      ensures Valid() && lines == [] && current == None && base == 0 && defaultLevel == 0
      ensures indentation == Ascii("    ") && this.lineSeparator == lineSeparator
      ensures Render() == []
    {
      lines := [];
      current := None;
      base := 0;
      defaultLevel := 0;
      indentation := Ascii("    ");
      this.lineSeparator := lineSeparator;
    }

    /** `IndentableLineBuffer(String s)`: one line holding `s`, at level 0. */
    constructor WithLine(lineSeparator: JString, s: JString)
      ensures Valid() && lines == [Line(0, s)] && base == 0 && defaultLevel == 0
      ensures indentation == Ascii("    ") && this.lineSeparator == lineSeparator
      ensures Render() == s + lineSeparator
    {
      lines := [Line(0, s)];
      current := Some(Line(0, s));
      base := 0;
      defaultLevel := 0;
      indentation := Ascii("    ");
      this.lineSeparator := lineSeparator;
      new;
      RenderSnoc(0, indentation, lineSeparator, [], Line(0, s));
      assert [] + [Line(0, s)] == lines && Indents(0, 0) == 0;
    }

    /** `IndentableLineBuffer(int base_indent_level)`: no lines, the given base level. */
    constructor WithBase(lineSeparator: JString, baseLevel: JInt)
      ensures Valid() && lines == [] && current == None && base == baseLevel && defaultLevel == 0
      ensures indentation == Ascii("    ") && this.lineSeparator == lineSeparator
    {
      lines := [];
      current := None;
      base := baseLevel;
      defaultLevel := 0;
      indentation := Ascii("    ");
      this.lineSeparator := lineSeparator;
    }

    /** `setIndentation`: the string rendered once per indent level. */
    method SetIndentation(s: JString)
      modifies this`indentation
      ensures indentation == s
    {
      indentation := s;
    }

    /** `setLineSeparator`. */
    method SetLineSeparator(s: JString)
      modifies this`lineSeparator
      ensures lineSeparator == s
    {
      lineSeparator := s;
    }

    /** `setBaseIndentLevel`. */
    method SetBaseIndentLevel(level: JInt)
      modifies this`base
      ensures base == level
    {
      base := level;
    }

    /** `setDefaultLineIndentLevel`. */
    method SetDefaultLineIndentLevel(level: JInt)
      modifies this`defaultLevel
      ensures defaultLevel == level
    {
      defaultLevel := level;
    }

    /** `indent(k)`: raises the base level, for existing and later lines alike; it
        renders as `IndentExisting(k)` does. */
    method Indent(k: JInt)
      requires Valid()
      modifies this`base
      ensures Valid() && base == AddInt(old(base), k)
      ensures Render() == RenderLines(old(base), indentation, lineSeparator, Shifted(lines, k))
    {
      base := AddInt(base, k);
      ShiftedRender(old(base), indentation, lineSeparator, lines, k);
    }

    /** `indentExisting(k)`: raises the individual level of every existing line. */
    method IndentExisting(k: JInt)
      requires Valid()
      modifies this`lines, this`current
      ensures Valid() && lines == Shifted(old(lines), k)
      ensures old(lines) == [] ==> current == old(current)
    {
      // the loop updates a copy of the list; the fields are written once after it
      var updated := lines;
      var j := 0;
      while j < |updated|
        invariant |updated| == |lines| && 0 <= j <= |lines|
        invariant updated == Shifted(lines[..j], k) + lines[j..]
        modifies {}
      {
        ShiftedStep(lines, j, k);
        updated := updated[j := Shift(updated[j], k)];
        j := j + 1;
      }
      assert lines[..j] == lines;
      lines := updated;
      if lines != [] {
        current := Some(lines[|lines| - 1]);   // the current line is the last line's object
      }
    }

    /** `indentCurrentLine(k)`: raises the current line's individual level;
        `NullPointerException` when there is no current line. */
    method IndentCurrentLine(k: JInt) returns (r: Outcome)
      requires Valid()
      modifies this`lines, this`current
      ensures Valid()
      ensures old(current).None? ==> r == Fail(NullPointer) && lines == old(lines) && current == old(current)
      ensures old(current).Some? ==> r == Done && current == Some(Shift(old(current).value, k))
      ensures old(current).Some? && old(lines) == [] ==> lines == []
      ensures old(lines) != [] ==> lines == old(lines)[..|old(lines)| - 1] + [Shift(old(lines)[|old(lines)| - 1], k)]
    {
      if current.None? {
        return Fail(NullPointer);
      }
      current := Some(Shift(current.value, k));
      if lines != [] {
        lines := lines[..|lines| - 1] + [current.value];
      }
      return Done;
    }

    /** `addLine(String)` and `addLine(StringBuilder)`: a new last line holding `s`
        at the default level, which becomes the current line. */
    method AddLine(s: JString)
      requires Valid()
      modifies this`lines, this`current
      ensures Valid() && lines == old(lines) + [Line(defaultLevel, s)]
      ensures Render() == old(Render()) + RenderLine(base, indentation, lineSeparator, Line(defaultLevel, s))
    {
      AddLineAt(defaultLevel, s);
    }

    /** `addLine(int, String)` and `addLine(int, StringBuilder)`: a new last line
        holding `s` at the given level. */
    method AddLineAt(level: JInt, s: JString)
      requires Valid()
      modifies this`lines, this`current
      ensures Valid() && lines == old(lines) + [Line(level, s)]
      ensures Render() == old(Render()) + RenderLine(base, indentation, lineSeparator, Line(level, s))
    {
      AddLineTaken(Line(level, s));
    }

    /** `addLine(IndentableLine)`: takes `l` over as the new last line, keeping its
        individual level. */
    method AddLineTaken(l: Line)
      requires Valid()
      modifies this`lines, this`current
      ensures Valid() && lines == old(lines) + [l] && current == Some(l)
      ensures Render() == old(Render()) + RenderLine(base, indentation, lineSeparator, l)
    {
      lines := lines + [l];
      current := Some(l);
      assert lines[..|lines| - 1] == old(lines);
    }

    /** `newLine()`: a new empty line at the default level. */
    method NewLine()
      requires Valid()
      modifies this`lines, this`current
      ensures Valid() && lines == old(lines) + [Line(defaultLevel, [])]
    {
      AddLine([]);
    }

    /** `newLine(int)`: a new empty line at the given level. */
    method NewLineAt(level: JInt)
      requires Valid()
      modifies this`lines, this`current
      ensures Valid() && lines == old(lines) + [Line(level, [])]
    {
      AddLineAt(level, []);
    }

    /** The current line's `text.append(s)`. */
    method ExtendCurrentLine(s: JString)
      requires Valid() && lines != []
      modifies this`lines, this`current
      ensures Valid() && lines == WithAppended(old(lines), s, defaultLevel)
    {
      var n := |lines| - 1;
      var l := lines[n].(text := lines[n].text + s);
      lines := lines[..n] + [l];
      current := Some(l);
    }

    /** `append(String)`, `append(StringBuilder)` and `append(CharSequence)`: extends
        the current line by `s`, or starts the buffer with a line holding `s` at the
        default level. The line count grows only from 0 to 1. */
    method Append(s: JString)
      requires Valid()
      modifies this`lines, this`current
      ensures Valid() && lines == WithAppended(old(lines), s, defaultLevel)
      ensures |lines| == if old(lines) == [] then 1 else |old(lines)|
      ensures old(lines) != [] ==>
                Render() == old(Render())[..|old(Render())| - |lineSeparator|] + s + lineSeparator
    {
      if lines == [] {
        AddLine(s);
      } else {
        AppendRender(base, indentation, lineSeparator, lines, s, defaultLevel);
        ExtendCurrentLine(s);
      }
    }

    /** `append(char)`: starts a new empty line when there is none, then extends the
        current line by `c`. */
    method AppendChar(c: JChar)
      requires Valid()
      modifies this`lines, this`current
      ensures Valid() && lines == WithAppended(old(lines), [c], defaultLevel)
    {
      if lines == [] {
        NewLine();
        assert [] + [c] == [c];
      }
      ExtendCurrentLine([c]);
    }

    /** `append(CharSequence, int, int)`: starts a new empty line when there is none,
        then extends the current line by `csq[start..end]`; the range check of
        `StringBuilder.append` throws `IndexOutOfBoundsException` after that new
        line has been started. */
    method AppendRange(csq: JString, start: JInt, end: JInt) returns (r: Outcome)
      requires Valid()
      modifies this`lines, this`current
      ensures Valid()
      ensures r == Fail(IndexOutOfBounds) <==> !(0 <= start <= end && end as int <= |csq|)
      ensures r.Fail? ==> lines == (if old(lines) == [] then [Line(defaultLevel, [])] else old(lines))
      ensures r == Done ==> lines == WithAppended(old(lines), csq[start..end], defaultLevel)
    {
      if lines == [] {
        NewLine();
      }
      if !(0 <= start <= end && end as int <= |csq|) {
        return Fail(IndexOutOfBounds);
      }
      assert [] + csq[start..end] == csq[start..end];
      ExtendCurrentLine(csq[start..end]);
      return Done;
    }

    /** `addLines(other)`: takes over `other`'s lines in order, each with `other`'s
        base level added to its own, then sets `other`'s base level to 0. Both
        buffers keep their renderings apart from this one gaining `other`'s lines;
        afterwards both hold the taken lines.

        `addLines(this)` walks the buffer's own list while adding to it: on an empty
        buffer it only sets the base level to 0; otherwise the first line is shifted
        by the base level and added once more at the end, and the list iterator's
        next step throws `ConcurrentModificationException`. */
    method AddLines(other: IndentableLineBuffer) returns (r: Outcome)
      requires Valid() && other.Valid()
      modifies this`lines, this`current, other`lines, other`current, other`base
      ensures Valid() && other.Valid()
      ensures other != this ==> r == Done
      ensures other != this ==> lines == old(lines) + Shifted(old(other.lines), old(other.base))
      ensures other != this ==> other.lines == Shifted(old(other.lines), old(other.base)) && other.base == 0
      ensures other != this && old(other.lines) == [] ==> current == old(current) && other.current == old(other.current)
      ensures other != this ==> Render() == old(Render()) + RenderLines(base, indentation, lineSeparator, other.lines)
      ensures other != this ==> other.Render() == old(other.Render())
      ensures other == this && old(lines) == [] ==>
                r == Done && lines == [] && current == old(current) && base == 0
      ensures other == this && old(lines) != [] ==>
                var l := Shift(old(lines)[0], old(base));
                r == Fail(ConcurrentModification) && base == old(base) &&
                lines == old(lines)[0 := l] + [l] && current == Some(l)
    {
      if other == this {
        if lines == [] {
          base := 0;
          return Done;
        }
        var l := Shift(lines[0], base);
        lines := lines[0 := l] + [l];
        current := Some(l);
        return Fail(ConcurrentModification);
      }
      var mine, taken := TakeOverLines(lines, other.lines, other.base);
      ghost var theirs := other.lines;
      RenderConcat(base, indentation, lineSeparator, lines, taken);
      MergedRenderKept(other.base, other.indentation, other.lineSeparator, theirs);
      lines, other.lines := mine, taken;
      if taken != [] {
        // the last line taken over is the current line of both buffers
        current, other.current := Some(taken[|taken| - 1]), Some(taken[|taken| - 1]);
      }
      other.base := 0;
      return Done;
    }

    /** `appendLines(other)`: nothing when `other` has no lines. Otherwise removes
        `other`'s first line, appends its text to this buffer's current line (its
        level is ignored) and takes over the rest as `AddLines` does. `other`'s
        current line stays the removed line when that was its only one.

        `appendLines(this)` on a buffer with lines removes the first line, appends its
        text (starting a new line at the default level if none is left), and then
        fails in `addLines(this)`, which has lines to walk. */
    method AppendLines(other: IndentableLineBuffer) returns (r: Outcome)
      requires Valid() && other.Valid()
      modifies this`lines, this`current, other`lines, other`current, other`base
      ensures Valid() && other.Valid()
      ensures old(other.lines) == [] ==>
                r == Done && lines == old(lines) && current == old(current) &&
                other.lines == [] && other.current == old(other.current) && other.base == old(other.base)
      ensures other != this && old(other.lines) != [] ==>
                r == Done &&
                lines == WithAppended(old(lines), old(other.lines)[0].text, defaultLevel) +
                         Shifted(old(other.lines)[1..], old(other.base)) &&
                other.lines == Shifted(old(other.lines)[1..], old(other.base)) && other.base == 0 &&
                (|old(other.lines)| == 1 ==> other.current == old(other.current))
      ensures other == this && old(lines) != [] ==>
                var rest := WithAppended(old(lines)[1..], old(lines)[0].text, defaultLevel);
                var l := Shift(rest[0], old(base));
                r == Fail(ConcurrentModification) && base == old(base) &&
                lines == rest[0 := l] + [l] && current == Some(l)
    {
      if other.lines != [] {
        var first := other.lines[0];
        other.lines := other.lines[1..];
        Append(first.text);
        r := AddLines(other);
      } else {
        r := Done;
      }
    }

    /** `toString()`: every line, in order, as its resulting level's worth of
        indentation, its text and the line separator. */
    method ToString() returns (r: JString)
      requires Valid()
      ensures r == Render()
      ensures lines == [] ==> r == []
    {
      r := [];
      var k := 0;
      while k < |lines|
        invariant 0 <= k <= |lines|
        invariant r == RenderLines(base, indentation, lineSeparator, lines[..k])
      {
        var l := lines[k];
        r := RepeatInto(r, indentation, AddInt(base, l.level));
        r := r + l.text + lineSeparator;
        assert lines[..k + 1][..k] == lines[..k];
        k := k + 1;
      }
      assert lines[..k] == lines;
    }

    /** `clone()`: a new buffer with the same settings and copies of the lines, so
        that changing either leaves the other as it was. */
    method Clone() returns (that: IndentableLineBuffer)
      requires Valid()
      ensures fresh(that) && that.Valid()
      ensures that.lines == lines && that.current == current && that.base == base
      ensures that.defaultLevel == defaultLevel && that.indentation == indentation
      ensures that.lineSeparator == lineSeparator
      ensures that.Render() == Render()
    {
      that := new IndentableLineBuffer(lineSeparator);
      that.base, that.defaultLevel, that.indentation := base, defaultLevel, indentation;
      that.current := current;
      var k := 0;
      while k < |lines|
        invariant 0 <= k <= |lines|
        invariant fresh(that) && that.Valid()
        invariant that.lines == lines[..k] && (k == 0 ==> that.current == current)
        invariant that.base == base && that.defaultLevel == defaultLevel
        invariant that.indentation == indentation && that.lineSeparator == lineSeparator
      {
        assert lines[..k + 1] == lines[..k] + [lines[k]];
        that.AddLineTaken(lines[k]);
        k := k + 1;
      }
      assert lines[..k] == lines;
    }
  }
}
