# java-util4j core, modelled in Dafny

This project models the core of `org.tbull.util`, a small Java utility library.

- **Collections.** Grep and map over several sources at once. The eager form
  appends into a destination list or counts. The lazy form is an iterator that
  pulls one source element at a time.
- **Grepper.** Composable filters: reject-all, accept-all, inverse, OR and AND
  over a list of client greppers.
- **IndentableLineBuffer.** A buffer of lines, each with an indent level and a
  text. Rendering adds a base level to every line's own level.
- **CharSequenceReader.** A `Reader` over a character sequence, with a cursor,
  mark/reset and bulk reads.
- **BitShuffler.** A bit permutation of `int`/`long` values and its inverse.
- **Version.** A version number value: validation, ordering, equality,
  hashing, formatting and parsing.
- **StringBuilderWriter.** A `Writer` that appends to a `StringBuilder`.

Each Java class becomes a Dafny module.

- Objects whose fields change in place are classes with `modifies` frames.
- Pure values are datatypes and functions.
- Every loop of the source is a method with invariants, proved against a
  specification function. The properties of that function are then proved as
  lemmas.

Java `char` is the 16-bit `JChar`, and a Java string is `seq<JChar>`. Java
exceptions are the error side of `Result`/`Outcome`. Java `int` wrap-around is
written out where the source relies on it: indent levels (`JInt`, `AddInt`),
hash codes and `length()`'s narrowing to `byte`. The bit loops work on `bv32`
and `bv64`.

Modules:

- `JavaLang`: shared Java notions.
- `CollectionsSpec`: filter, count and map over the concatenated sources.
- `CollectionsEager`: the eager operations.
- `CollectionsLazy`: the lazy iterators.
- `Greppers`, `LineBuffer`, `CharSequenceReading`, `BitShuffling`, `Versions`
  and `StringBuilderWriting`: one module per remaining class.

Where the comments of the source and its code disagree, the model follows the
code.

- `shuffleInt` clears the bits above the sequence length. The class comment of
  `BitShuffler` says they stay untouched.
- `Version.toString` puts the special part directly after the patch number,
  with no dash.
- `LazyGrepIterator.remove` removes through the source iterator. Its comment
  says it always throws.
- `LazyMapIterator` advances by at most one source per call. So an empty source
  ends the iteration early (`MapStopsAtEmptySource`).

## Model

| member | source | states |
|---|---|---|
| CollectionsEager.GrepInto | src/org/tbull/util/Collections.java:391-397 | `dest` is kept and then gains exactly the accepted elements of all sources, in source order; the result is `dest` itself |
| CollectionsEager.Grep | src/org/tbull/util/Collections.java:343-347 | the fresh-list grep is the filtered concatenation of the sources |
| CollectionsEager.GrepCount | src/org/tbull/util/Collections.java:507-515 | the count is the number of accepted elements of the concatenated sources |
| CollectionsEager.MapInto | src/org/tbull/util/Collections.java:569-575 | `dest` is kept and then gains the mapped image of every element, in source order; the result is `dest` itself |
| CollectionsEager.Map | src/org/tbull/util/Collections.java:552-556 | the fresh-list map is the mapped concatenation, one output per input element |
| CollectionsSpec.FilterContents | src/org/tbull/util/Collections.java:391-397 | grep keeps only accepted elements, and every accepted element as often as it occurs |
| CollectionsSpec.CountIsFilterLength | src/org/tbull/util/Collections.java:489-515 | `grepCount` equals the length of `grep` |
| CollectionsSpec.Partition | src/org/tbull/util/Collections.java:507-515 | a grepper and its negation split the input: their results add up to the input as a multiset, and their counts to its length |
| CollectionsSpec.FilterAppend | src/org/tbull/util/Collections.java:391-397 | grepping a concatenation is the concatenation of the greps |
| CollectionsSpec.CountAppend | src/org/tbull/util/Collections.java:507-515 | counting over a concatenation adds the counts |
| CollectionsSpec.MapAppend | src/org/tbull/util/Collections.java:569-575 | mapping a concatenation is the concatenation of the maps |
| CollectionsSpec.MapElements | src/org/tbull/util/Collections.java:569-575 | map keeps the length and puts `m(s[k])` at every position `k` |
| CollectionsSpec.IdentityMap | src/org/tbull/util/Mapper.java:22-26 | mapping with the identity mapper gives back the input |
| CollectionsSpec.FilterAllOrNothing | src/org/tbull/util/Grepper.java:29-41 | grepping with accept-all gives back the input; grepping with reject-all gives nothing |
| CollectionsSpec.FilterSkipRejected | src/org/tbull/util/Collections.java:208-211 | elements none of which is accepted add nothing to the grep of what follows them |
| CollectionsSpec.FilterNoneAccepted | src/org/tbull/util/Collections.java:207-215 | a run in which no element is accepted greps to nothing |
| CollectionsSpec.ConcatSplit | src/org/tbull/util/Collections.java:392-393 | the sources read in order are the first `k` sources followed by the rest |
| CollectionsLazy.RestIsConcat | src/org/tbull/util/Collections.java:101-137 | what is left from a cursor (source `i`, offset `pos`) is the rest of source `i` followed by all later sources |
| CollectionsLazy.RestStart | src/org/tbull/util/Collections.java:101-109 | a fresh cursor has all sources ahead of it |
| CollectionsLazy.RestSplit | src/org/tbull/util/Collections.java:208-211 | advancing within a source consumes exactly the elements stepped over |
| CollectionsLazy.FirstAccepted | src/org/tbull/util/Collections.java:208-211 | the inner scan stops just after the first accepted element of the rest of the source, or at its end when none is accepted |
| CollectionsLazy.ScanOutcome | src/org/tbull/util/Collections.java:207-215 | one round of the outer loop either pulls up to the first accepted element or exhausts the source with nothing accepted |
| CollectionsLazy.ExhaustedExit | src/org/tbull/util/Collections.java:213-214 | when no source is left, everything pulled was rejected and nothing is pending |
| CollectionsLazy.PulledKeepsFilter | src/org/tbull/util/Collections.java:202-216 | pulling up to the first accepted element keeps the grep sequence still to come: the pending element followed by the grep of the rest |
| CollectionsLazy.RestAfterRemove | src/org/tbull/util/Collections.java:239-242 | removing the element just returned from the source leaves the elements still ahead unchanged |
| CollectionsLazy.LazyGrepIterator.constructor | src/org/tbull/util/Collections.java:185-190 | a new lazy grep has the grep of all sources ahead, nothing pending, not removable |
| CollectionsLazy.LazyGrepIterator.LoadNextIt | src/org/tbull/util/Collections.java:126-137 | `load_next_it` moves to the start of the next source and reports whether there is one |
| CollectionsLazy.LazyGrepIterator.HasNext | src/org/tbull/util/Collections.java:202-216 | true iff elements are still to come; the sequence to come is unchanged; with an element pending nothing moves; otherwise it pulls exactly up to the first accepted element and clears `removable` |
| CollectionsLazy.LazyGrepIterator.Seek | src/org/tbull/util/Collections.java:207-215 | the nested loop pulls up to the first accepted element, moving forward through the sources, or exhausts them all |
| CollectionsLazy.LazyGrepIterator.SeekRound | src/org/tbull/util/Collections.java:208-214 | one round: either an accepted element is pending in the same source, or the next source is loaded with everything before it rejected |
| CollectionsLazy.LazyGrepIterator.Next | src/org/tbull/util/Collections.java:219-232 | `NoSuchElementException` iff nothing is to come; otherwise it returns the head of the sequence to come, which loses exactly that head; the result is the element just before the source cursor, and the iterator becomes removable |
| CollectionsLazy.LazyGrepIterator.Remove | src/org/tbull/util/Collections.java:239-242 | `IllegalStateException` unless `removable` and the source iterator can remove; otherwise the element just returned is deleted from its source; `removable` is left set; the elements to come are unchanged |
| CollectionsLazy.LazyGrepIterator.Iterator | src/org/tbull/util/Collections.java:245-247 | the iterator is its own iterable |
| CollectionsLazy.LazyMapIterator.constructor | src/org/tbull/util/Collections.java:282-285 | a new lazy map has the mapped concatenation ahead |
| CollectionsLazy.LazyMapIterator.LoadNextIt | src/org/tbull/util/Collections.java:126-137 | moves to the start of the next source and reports whether there is one |
| CollectionsLazy.LazyMapIterator.HasNext | src/org/tbull/util/Collections.java:295-301 | true iff the current source has more, or the next source is non-empty; at most one source is loaded; the mapped sequence to come is unchanged |
| CollectionsLazy.LazyMapIterator.Next | src/org/tbull/util/Collections.java:304-310 | with no current source it dereferences null; `NoSuchElementException` exactly when the current source is done and the next is missing or empty; otherwise it returns the head of the mapped sequence to come, which loses exactly that head |
| CollectionsLazy.LazyMapIterator.Remove | src/org/tbull/util/Collections.java:314-316 | always `UnsupportedOperationException` |
| CollectionsLazy.LazyMapIterator.Iterator | src/org/tbull/util/Collections.java:319-321 | the iterator is its own iterable |
| CollectionsLazy.DrainGrepWithNext | src/org/tbull/util/Collections.java:219-232 | calling `next` until it throws yields exactly the eager grep |
| CollectionsLazy.DrainGrepWithHasNext | src/org/tbull/util/Collections.java:202-232 | the `hasNext`/`next` loop yields exactly the eager grep |
| CollectionsLazy.DrainMap | src/org/tbull/util/Collections.java:295-310 | the `hasNext`/`next` loop yields a prefix of the eager map, and all of it when no later source is empty |
| CollectionsLazy.MapStopsAtEmptySource | src/org/tbull/util/Collections.java:295-310 | for sources `[[1], [], [2]]` the first `next` after `1` throws; `hasNext` is then true and `next` returns `2` |
| Greppers.StockGreppers | src/org/tbull/util/Grepper.java:29-41 | `NULLGrepper` rejects and `ONEGrepper` accepts every element |
| Greppers.InverseLaw | src/org/tbull/util/Grepper.java:55-60 | `InverseGrepper` negates the wrapped grepper; wrapping twice gives back the original decision |
| Greppers.OrLaw | src/org/tbull/util/Grepper.java:85-90 | `ORGrepper` accepts iff some client accepts; an empty one rejects |
| Greppers.AndLaw | src/org/tbull/util/Grepper.java:114-119 | `ANDGrepper` accepts iff every client accepts; an empty one accepts |
| Greppers.OrScan | src/org/tbull/util/Grepper.java:85-90 | the OR scan asks a prefix of the clients: all asked before the last rejected, and it stops at the first accepting client |
| Greppers.AndScan | src/org/tbull/util/Grepper.java:114-119 | the AND scan asks a prefix of the clients: all asked before the last accepted, and it stops at the first rejecting client |
| Greppers.OrShortCircuit | src/org/tbull/util/Grepper.java:86-88 | when client `m` is the first to accept, OR asks exactly the first `m + 1` clients |
| Greppers.AndShortCircuit | src/org/tbull/util/Grepper.java:115-117 | when client `m` is the first to reject, AND asks exactly the first `m + 1` clients |
| JavaLang.ToInt32 | src/org/tbull/util/dev/IndentableLineBuffer.java:205-208 | narrowing to `int` keeps values within range and stays congruent modulo 2^32 |
| JavaLang.NonNegativeSumWrap | src/org/tbull/util/CharSequenceReader.java:202 | the sum of two non-negative `int`s wraps negative exactly when it exceeds `Integer.MAX_VALUE`, which is why `off + len < 0` catches overflow |
| JavaLang.ToByte | src/org/tbull/util/BitShuffler.java:155-158 | the `byte` cast stays in -128..127, keeps values already in range and stays congruent modulo 256 |
| JavaLang.ToJChar | src/org/tbull/util/StringBuilderWriter.java:144-146 | the `char` cast keeps values in 0..65535 and stays congruent modulo 65536 |
| JavaLang.List.Add | src/org/tbull/util/Collections.java:391-397 | `add` appends one element at the end of the list |
| JavaLang.AddIntNarrows | src/org/tbull/util/dev/IndentableLineBuffer.java:205-208 | adding indent levels is the exact sum narrowed to 32-bit `int` |
| JavaLang.AddIntAssociative | src/org/tbull/util/dev/IndentableLineBuffer.java:205-215 | wrapping `int` addition is associative |
| LineBuffer.RenderConcat | src/org/tbull/util/dev/IndentableLineBuffer.java:475-485 | rendering goes line by line: two runs of lines render as the first run's rendering followed by the second's |
| LineBuffer.RepeatInto | src/org/tbull/util/dev/IndentableLineBuffer.java:479-480 | the inner loop of `toString` appends the indentation once per level, and not at all for a resulting level of 0 or less |
| LineBuffer.ShiftedLines | src/org/tbull/util/dev/IndentableLineBuffer.java:212-215 | shifting keeps every text and adds `k` to every line's own level |
| LineBuffer.ShiftedRender | src/org/tbull/util/dev/IndentableLineBuffer.java:205-215 | `indent(k)` and `indentExisting(k)` render the same, even when the `int` sums wrap |
| LineBuffer.MergedRenderKept | src/org/tbull/util/dev/IndentableLineBuffer.java:411-428 | absorbing the base level into the lines and setting the base to 0 keeps the rendering |
| LineBuffer.MovedLineLevel | src/org/tbull/util/dev/IndentableLineBuffer.java:411-428 | a moved line's resulting level is this buffer's base plus the other's base plus its former own level |
| LineBuffer.AppendRender | src/org/tbull/util/dev/IndentableLineBuffer.java:242-245 | appending to a non-empty buffer inserts the text just before the final separator and changes nothing else of the rendering |
| LineBuffer.TakeOverLines | src/org/tbull/util/dev/IndentableLineBuffer.java:416-420 | the loop of `addLines` raises each taken line by the other's base level and appends them in order |
| LineBuffer.IndentableLineBuffer.constructor | src/org/tbull/util/dev/IndentableLineBuffer.java:137-146 | no lines, no current line, base and default level 0, four spaces of indentation; renders as the empty string |
| LineBuffer.IndentableLineBuffer.WithLine | src/org/tbull/util/dev/IndentableLineBuffer.java:150-153 | one line holding `s` at level 0; renders as `s` and the separator |
| LineBuffer.IndentableLineBuffer.WithBase | src/org/tbull/util/dev/IndentableLineBuffer.java:157-160 | no lines, the given base level |
| LineBuffer.IndentableLineBuffer.SetIndentation | src/org/tbull/util/dev/IndentableLineBuffer.java:171-174 | only the indentation string changes |
| LineBuffer.IndentableLineBuffer.SetLineSeparator | src/org/tbull/util/dev/IndentableLineBuffer.java:178-181 | only the separator changes |
| LineBuffer.IndentableLineBuffer.SetBaseIndentLevel | src/org/tbull/util/dev/IndentableLineBuffer.java:185-188 | only the base level changes |
| LineBuffer.IndentableLineBuffer.SetDefaultLineIndentLevel | src/org/tbull/util/dev/IndentableLineBuffer.java:192-195 | only the default level changes |
| LineBuffer.IndentableLineBuffer.Indent | src/org/tbull/util/dev/IndentableLineBuffer.java:205-208 | only the base level changes, by wrapping addition; the rendering equals that of the old base with every line shifted |
| LineBuffer.IndentableLineBuffer.IndentExisting | src/org/tbull/util/dev/IndentableLineBuffer.java:212-215 | every line's own level rises by `k`; the current line is still the last line |
| LineBuffer.IndentableLineBuffer.IndentCurrentLine | src/org/tbull/util/dev/IndentableLineBuffer.java:219-222 | `NullPointerException` without a current line; otherwise only the current (last) line's level rises by `k` |
| LineBuffer.IndentableLineBuffer.AddLine | src/org/tbull/util/dev/IndentableLineBuffer.java:342-346 | one new last line holding `s` at the default level, which becomes current; the rendering gains exactly that line |
| LineBuffer.IndentableLineBuffer.AddLineAt | src/org/tbull/util/dev/IndentableLineBuffer.java:350-354 | one new last line holding `s` at the given level; existing lines untouched |
| LineBuffer.IndentableLineBuffer.AddLineTaken | src/org/tbull/util/dev/IndentableLineBuffer.java:386-389 | the given line becomes the new last and current line, keeping its own level |
| LineBuffer.IndentableLineBuffer.NewLine | src/org/tbull/util/dev/IndentableLineBuffer.java:228-231 | one new empty line at the default level |
| LineBuffer.IndentableLineBuffer.NewLineAt | src/org/tbull/util/dev/IndentableLineBuffer.java:235-238 | one new empty line at the given level |
| LineBuffer.IndentableLineBuffer.ExtendCurrentLine | src/org/tbull/util/dev/IndentableLineBuffer.java:259-262 | only the current line's text is extended |
| LineBuffer.IndentableLineBuffer.Append | src/org/tbull/util/dev/IndentableLineBuffer.java:242-245 | an empty buffer gets one line holding `s`; otherwise only the last line is extended, the line count is unchanged, and `s` appears just before the final separator |
| LineBuffer.IndentableLineBuffer.AppendChar | src/org/tbull/util/dev/IndentableLineBuffer.java:272-277 | an empty line is started when there is none, then the current line gains `c` |
| LineBuffer.IndentableLineBuffer.AppendRange | src/org/tbull/util/dev/IndentableLineBuffer.java:298-303 | `IndexOutOfBoundsException` iff the range is not within `csq`, after the empty line has been started; otherwise the current line gains `csq[start..end]` |
| LineBuffer.IndentableLineBuffer.AddLines | src/org/tbull/util/dev/IndentableLineBuffer.java:411-428 | this buffer gains the other's lines in order, each raised by the other's base; the other's base becomes 0; the other's rendering is unchanged and this one gains exactly the moved lines' rendering. `addLines(this)` only sets the base to 0 on an empty buffer; with lines, the first line is raised by the base and added again at the end, then `ConcurrentModificationException` |
| LineBuffer.IndentableLineBuffer.AppendLines | src/org/tbull/util/dev/IndentableLineBuffer.java:442-449 | nothing when the other is empty; otherwise the other's first text is appended to the current line and its remaining lines are taken over as in `addLines`. `appendLines(this)` on a buffer with lines removes the first line, appends its text (a new line at the default level when none is left), then throws `ConcurrentModificationException` in `addLines(this)` |
| LineBuffer.IndentableLineBuffer.ToString | src/org/tbull/util/dev/IndentableLineBuffer.java:460-488 | the result is the rendering: every line as its resulting level's indentation, its text and a separator, in order; an empty buffer renders as "" |
| LineBuffer.IndentableLineBuffer.Clone | src/org/tbull/util/dev/IndentableLineBuffer.java:500-526 | a fresh buffer with equal settings, equal lines and an equal rendering |
| CharSequenceReading.CharSequenceReader.constructor | src/org/tbull/util/CharSequenceReader.java:72-88 | position and mark 0; immutable iff the backing sequence is a `String` |
| CharSequenceReading.CharSequenceReader.SetImmutable | src/org/tbull/util/CharSequenceReader.java:106-108 | only the flag changes |
| CharSequenceReading.CharSequenceReader.Length | src/org/tbull/util/CharSequenceReader.java:114-116 | the length of the backing sequence |
| CharSequenceReading.CharSequenceReader.Remaining | src/org/tbull/util/CharSequenceReader.java:126-128 | length minus position, between 0 and the length |
| CharSequenceReading.CharSequenceReader.MarkSupported | src/org/tbull/util/CharSequenceReader.java:139-141 | equals the immutable flag |
| CharSequenceReading.CharSequenceReader.Mark | src/org/tbull/util/CharSequenceReader.java:162-165 | `IOException` unless immutable; otherwise the mark is the position |
| CharSequenceReading.CharSequenceReader.Reset | src/org/tbull/util/CharSequenceReader.java:187-190 | `IOException` unless immutable; otherwise the position returns to the mark, which stays |
| CharSequenceReading.CharSequenceReader.Read | src/org/tbull/util/CharSequenceReader.java:195-197 | the char at the position, advancing by one; -1 at the end without moving |
| CharSequenceReading.CharSequenceReader.ReadInto | src/org/tbull/util/CharSequenceReader.java:200-236 | `IndexOutOfBoundsException` iff the destination range is invalid; 0 for `len == 0`; -1 at the end; otherwise copies `k = min(len, remaining)` chars to `cbuf[off..off+k)`, leaves every other cell alone, and advances by `k`. This is the intended clamp; the code as written is `ReadAsWritten` (see Findings) |
| CharSequenceReading.ReadAsWritten | src/org/tbull/util/CharSequenceReader.java:209-234 | the clamp as written copies `min(len, remaining)` chars exactly when `position + len` fits in `int`; beyond that the `String`, `StringBuilder` and `StringBuffer` paths throw without copying, and the char-by-char loop copies to the end of the sequence, throws, and leaves the position one past the end |
| CharSequenceReading.ReadPastMaxIntThrows | src/org/tbull/util/CharSequenceReader.java:209 | 2^31 - 2 chars, position 2^31 - 3, a 3-char read: as written, a `String` backend throws with nothing copied and the position kept, and the char-by-char loop throws after copying one char with the position at 2^31 - 1 |
| CharSequenceReading.CharSequenceReader.ReadArray | src/org/tbull/util/CharSequenceReader.java:239-241 | reading into a whole array: the same as reading into `cbuf[0..length)` |
| CharSequenceReading.CharSequenceReader.Skip | src/org/tbull/util/CharSequenceReader.java:272-286 | `IllegalArgumentException` for negative `n`; otherwise advances by and returns `min(n, remaining)` |
| CharSequenceReading.ReadAllChars | src/org/tbull/util/CharSequenceReader.java:195-197 | reading char by char until -1 yields the backing sequence |
| BitShuffling.BitShuffler.constructor | src/org/tbull/util/BitShuffler.java:37-39 | the 64-bit identity and its inverse |
| BitShuffling.BitShuffler.VerifySequence | src/org/tbull/util/BitShuffler.java:54-69 | true iff the sequence is a permutation; an `ArrayIndexOutOfBoundsException` iff a negative entry is met before any too-large one |
| BitShuffling.BitShuffler.SetShuffleSequence | src/org/tbull/util/BitShuffler.java:93-101 | success iff a permutation, then a copy with its inverse; on failure the shuffle array is already zeroed and the unshuffle array stale |
| BitShuffling.BitShuffler.Reset | src/org/tbull/util/BitShuffler.java:110-116 | the identity of the given length and its inverse; `NegativeArraySizeException` for a negative length |
| BitShuffling.BitShuffler.CreateUnshuffleSequence | src/org/tbull/util/BitShuffler.java:142-147 | the unshuffle array is the inverse permutation |
| BitShuffling.BitShuffler.Length | src/org/tbull/util/BitShuffler.java:155-158 | the sequence length narrowed to `byte` |
| BitShuffling.BitShuffler.ShuffleInt | src/org/tbull/util/BitShuffler.java:182-198 | bit `i` goes to bit `shuffle[i]` for `i` below min(length, 32); all other bits are 0 |
| BitShuffling.BitShuffler.UnshuffleInt | src/org/tbull/util/BitShuffler.java:248-259 | the same loop over the unshuffle sequence |
| BitShuffling.BitShuffler.ShuffleLong | src/org/tbull/util/BitShuffler.java:214-225 | the loop as written, with its `int` mask; it equals the intended bit move for lengths up to 31 |
| BitShuffling.BitShuffler.UnshuffleLong | src/org/tbull/util/BitShuffler.java:273-284 | the same over the unshuffle sequence |
| BitShuffling.WithSequence | src/org/tbull/util/BitShuffler.java:47-49 | a shuffler iff the argument is a permutation, otherwise the exception `setShuffleSequence` throws |
| BitShuffling.MoveInt | src/org/tbull/util/BitShuffler.java:186-195 | the `int` loop computes the specified bit move |
| BitShuffling.MoveLong | src/org/tbull/util/BitShuffler.java:217-222 | the `long` loop computes the bit move as written |
| BitShuffling.IdentityIsPermutation | src/org/tbull/util/BitShuffler.java:110-116 | the identity is a permutation and its own inverse |
| BitShuffling.PermutationInjective | src/org/tbull/util/BitShuffler.java:54-69 | a sequence that passes the check maps distinct bits to distinct bits |
| BitShuffling.InverseOf | src/org/tbull/util/BitShuffler.java:142-147 | the table `unshuffle[shuffle[i]] = i` is a permutation that undoes and is undone by the shuffle sequence |
| BitShuffling.RoundTripInt | src/org/tbull/util/BitShuffler.java:248-259 | unshuffling a shuffled `int` gives back its low `length` bits |
| BitShuffling.RoundTripsIntBoth | src/org/tbull/util/BitShuffler.java:182-259 | for lengths up to 32 both compositions give back the low `length` bits |
| BitShuffling.RoundTripsInt | src/org/tbull/util/BitShuffler.java:182-259 | a ready shuffler of at most 32 bits round-trips an `int` both ways |
| BitShuffling.RoundTripLong | src/org/tbull/util/BitShuffler.java:273-284 | the intended `long` move round-trips the low `length` bits for lengths up to 64 |
| BitShuffling.IdentityKeepsLowBits | src/org/tbull/util/BitShuffler.java:214-225 | the intended `long` move with the identity keeps exactly the low `length` bits |
| BitShuffling.RoundTripLongAsWritten | src/org/tbull/util/BitShuffler.java:214-284 | the `long` loops as written round-trip the low bits for lengths up to 31 |
| BitShuffling.RoundTripsLongBoth | src/org/tbull/util/BitShuffler.java:214-284 | both compositions of the `long` loops as written give back the low bits for lengths up to 31 |
| BitShuffling.RoundTripsLong | src/org/tbull/util/BitShuffler.java:214-284 | a ready shuffler of at most 31 bits round-trips a `long` both ways |
| BitShuffling.ShufflerRoundTripsLong | src/org/tbull/util/BitShuffler.java:214-284 | the same round trip, stated over a shuffler's arrays |
| BitShuffling.ShuffleLongKeepsBit32 | src/org/tbull/util/BitShuffler.java:214-225 | with the 32-bit identity, `shuffleLong(1L << 32)` as written returns `1L << 32`, where the intended move returns 0 |
| Versions.NewVersion | src/org/tbull/util/Version.java:60-76 | `IllegalArgumentException` iff a number is negative or the special part does not match `[A-Za-z][0-9A-Za-z-]*`; otherwise exactly those fields |
| Versions.NewVersion3 | src/org/tbull/util/Version.java:52-54 | patch 0 and no special part; fails iff a number is negative |
| Versions.NewVersion4 | src/org/tbull/util/Version.java:56-58 | no special part; fails iff a number is negative |
| Versions.Equals | src/org/tbull/util/Version.java:123-140 | `equals` holds iff the two versions are the same value |
| Versions.CompareZeroIffEquals | src/org/tbull/util/Version.java:90-140 | `compareTo` is 0 exactly when `equals` holds |
| Versions.CompareAntisymmetric | src/org/tbull/util/Version.java:90-108 | swapping the arguments negates `compareTo` |
| Versions.CompareTransitive | src/org/tbull/util/Version.java:90-108 | `compareTo` orders transitively |
| Versions.SpecialRanksBelowRelease | src/org/tbull/util/Version.java:105-107 | with equal numbers, a version with a special part ranks below one without |
| Versions.StrCompareZero | src/org/tbull/util/Version.java:107 | `String.compareTo` is 0 exactly for equal strings |
| Versions.StrCompareFlip | src/org/tbull/util/Version.java:107 | swapping the strings negates `String.compareTo` |
| Versions.StrCompareTransitive | src/org/tbull/util/Version.java:107 | `String.compareTo` orders transitively |
| Versions.EqualOrderEqualHash | src/org/tbull/util/Version.java:90-121 | versions that compare equal have equal hash codes |
| Versions.HashCodeClosedForm | src/org/tbull/util/Version.java:111-121 | the generated hash is the base-31 polynomial over major, minor, patch, revision and special, wrapped into `int` |
| Versions.Hash31Wraps | src/org/tbull/util/Version.java:111-121 | wrapping after every step equals wrapping the exact polynomial once |
| Versions.IsStable | src/org/tbull/util/Version.java:152-154 | stable iff the major version is at least 1 |
| Versions.StableUpwardClosed | src/org/tbull/util/Version.java:152-154 | every version ordered at or above a stable one is stable |
| Versions.ParseInt | src/org/tbull/util/Version.java:192-195 | `Integer.parseInt` of a digit run: its value when that fits in `int`, `IllegalArgumentException` otherwise |
| Versions.Decimal | src/org/tbull/util/Version.java:200-204 | a number prints as a non-empty run of decimal digits |
| Versions.FromFourNumbers | src/org/tbull/util/Version.java:186-197 | four captured numbers that fit in `int`, with a captured special part, build exactly that version |
| Versions.DecimalValue | src/org/tbull/util/Version.java:200-204 | the decimal digits `format` appends read back as the number |
| Versions.Parse | src/org/tbull/util/Version.java:175-197 | `parse` yields a valid version or `IllegalArgumentException`, and fails for every string outside the version language |
| Versions.Match | src/org/tbull/util/Version.java:33-34 | the recognizer captures one to four digit runs |
| Versions.MatchNumbers | src/org/tbull/util/Version.java:33-34 | four dot-separated digit runs, then an optional special part, are recognized with exactly those captures |
| Versions.ParseIgnoresLeadingV | src/org/tbull/util/Version.java:33-34 | a leading `v` before the digits does not change the result |
| Versions.ParseToString | src/org/tbull/util/Version.java:200-210 | parsing `toString` gives back the version |
| Versions.ParseToTagString | src/org/tbull/util/Version.java:216-220 | parsing `toTagString` gives back the version |
| Versions.ParseTrailingDash | src/org/tbull/util/Version.java:33-34 | "1.4-" parses as 1.4.0.0 with no special part |
| Versions.ParseRejectsFiveNumbers | src/org/tbull/util/Version.java:33-34 | five dot-separated numbers are rejected |
| Versions.VersionObject.ToStringCached | src/org/tbull/util/Version.java:208-212 | the result is the formatted version, now cached, so every call returns the same string |
| Versions.VersionObject.ToTagStringCached | src/org/tbull/util/Version.java:216-220 | the same for the tag string |
| StringBuilderWriting.Substring | src/org/tbull/util/StringBuilderWriter.java:106-108 | `IndexOutOfBoundsException` iff the range is invalid; otherwise the chars of the range |
| StringBuilderWriting.StringBuilderWriter.constructor | src/org/tbull/util/StringBuilderWriter.java:47-49 | a new, empty builder |
| StringBuilderWriting.StringBuilderWriter.WithBuilder | src/org/tbull/util/StringBuilderWriter.java:68-70 | writes go to the given builder, which keeps its contents |
| StringBuilderWriting.WithCapacity | src/org/tbull/util/StringBuilderWriter.java:58-61 | `IllegalArgumentException` iff the capacity is not positive; otherwise an empty builder |
| StringBuilderWriting.StringBuilderWriter.GetBuilder | src/org/tbull/util/StringBuilderWriter.java:82-84 | the underlying builder itself |
| StringBuilderWriting.StringBuilderWriter.CharAt | src/org/tbull/util/StringBuilderWriter.java:96-98 | the char at `index`, or `IndexOutOfBoundsException` iff `index` is outside the buffer |
| StringBuilderWriting.StringBuilderWriter.Length | src/org/tbull/util/StringBuilderWriter.java:102-104 | the number of chars written |
| StringBuilderWriting.StringBuilderWriter.SubSequence | src/org/tbull/util/StringBuilderWriter.java:106-108 | the chars of the range, or `IndexOutOfBoundsException` iff it is invalid |
| StringBuilderWriting.StringBuilderWriter.ToString | src/org/tbull/util/StringBuilderWriter.java:112-114 | the accumulated chars, agreeing with `charAt` at every index |
| StringBuilderWriting.StringBuilderWriter.AppendChar | src/org/tbull/util/StringBuilderWriter.java:127-130 | appends `c` and returns the writer |
| StringBuilderWriting.StringBuilderWriter.AppendRange | src/org/tbull/util/StringBuilderWriter.java:132-136 | appends `csq[start..end)`; for null it appends `"null"[start..start+end)`, treating `end` as a length; nothing changes on `IndexOutOfBoundsException` |
| StringBuilderWriting.StringBuilderWriter.Append | src/org/tbull/util/StringBuilderWriter.java:138-141 | appends `csq`, or "null" for null, and returns the writer |
| StringBuilderWriting.StringBuilderWriter.WriteInt | src/org/tbull/util/StringBuilderWriter.java:144-146 | appends exactly one char, the low 16 bits of `c` |
| StringBuilderWriting.StringBuilderWriter.WriteChars | src/org/tbull/util/StringBuilderWriter.java:148-150 | appends `cbuf[off..off+len)`, or `IndexOutOfBoundsException` with nothing written |
| StringBuilderWriting.StringBuilderWriter.Write | src/org/tbull/util/StringBuilderWriter.java:152-154 | appends `str`, or "null" for null |
| StringBuilderWriting.StringBuilderWriter.WriteRange | src/org/tbull/util/StringBuilderWriter.java:156-158 | appends `str[off..off+len)`, or `IndexOutOfBoundsException` with nothing written |
| StringBuilderWriting.StringBuilderWriter.Close | src/org/tbull/util/StringBuilderWriter.java:164-166 | the buffer is unchanged |
| StringBuilderWriting.StringBuilderWriter.Flush | src/org/tbull/util/StringBuilderWriter.java:169-171 | the buffer is unchanged |
| StringBuilderWriting.WriteAll | src/org/tbull/util/StringBuilderWriter.java:152-154 | successive writes accumulate the concatenation of what was written |

## Left out

- `null` elements in sources, and `null` strings, arrays and greppers, are not modelled. The exception is the `null` argument of `StringBuilderWriter.append`/`write`, which is an `Option`.
- Iterator sources are sequences. So the `Iterable` and `Iterator` overloads of `grep`, `grepCount`, `map`, `grepLazy` and `mapLazy` are one operation each. Exceptions thrown by a caller's own iterators are not modelled. Neither is a source changed behind the iterator's back.
- The source iterator's own `remove` check is modelled the way `ArrayList`'s iterator makes it, with the `lastRet` flag. Other collection types are not modelled.
- `CollectionsEager.GrepCount`: the count is a `nat`. The wrap of the Java `int` counter beyond 2^31 - 1 elements is not modelled.
- `Grepper.RegexGrepper` is not modelled. It wraps the Java regular expression engine.
- The purity rule of `Grepper` is not a separate lemma. A grepper is a function of the element alone, so its decision cannot depend on call order.
- `Mapper` is a function parameter. `IdentityMapper` is the identity function.
- `IndentableLineBuffer` lines are values, not shared objects.
  - After `addLines` the Java buffers share the moved line objects. After `appendLines` the other buffer's current line may be a line that has left it. The model updates both places alike and does not track later aliasing through them.
  - `clone` gives a buffer whose detached current line (with no lines) is shared with the original. The model copies the value.
- In `addLines(this)` and `appendLines(this)` the first and the added last line are one Java object. The model holds two equal values and does not track later updates through either.
- `LineBuffer.IndentableLineBuffer.ToString`: the capacity precomputation is not modelled. It can overflow `int` and then throw `NegativeArraySizeException`. Builder capacities are not modelled either.
- `IndentableLineBuffer.format` and `dumpData` are not modelled. They depend on `java.util.Formatter` and on `DataDumper`'s reflection. `DataDumper` is not part of this model.
- The line separator comes from the `line.separator` system property. Here it is a constructor parameter.
- The line buffer methods' return value `this`, used for chaining, is not modelled.
- `BitShuffler.randomSequence` is not modelled. It depends on `java.util.Random`.
- `BitShuffler.shuffle(byte[])` is not modelled. It is a stub that returns zeros.
- The commented-out `shuffleBitSet` is not modelled.
- Shuffle sequences longer than the shifted type are not modelled. The loops stop at 32 or 64 bits, and a table entry `s` shifts by `s & 31` or `s & 63` as in Java.
- `CharSequenceReader.read(CharBuffer)` is not modelled. It is buffer plumbing over `read(char[], int, int)`.
- `CharSequenceReader.ready` and `close` are not modelled. Neither one changes any state.
- The `String`, `StringBuilder` and `StringBuffer` fast paths of `read(char[], int, int)` copy the same chars as the char-by-char loop whenever `position + len` fits in `int`. `ReadInto` models them once, as that loop. Where the sum wraps, the paths differ; only `ReadAsWritten` covers that case (see Findings).
- `CharSequenceReading.CharSequenceReader.ReadInto`: it models the intended clamp. Where `position + len` exceeds `Integer.MAX_VALUE`, the code as written throws `IndexOutOfBoundsException` instead of returning the remaining chars; `ReadAsWritten` models that case.
- `CharSequenceReading.CharSequenceReader.ReadArray`: `r.Ok?` holds for the intended clamp. `read(cbuf)` as written throws when the position plus `cbuf.length` exceeds `Integer.MAX_VALUE`.
- The backing sequence is fixed, so a sequence that shrinks under the reader is not modelled.
- `CharSequenceReading.CharSequenceReader.Skip`: `n` is unbounded here. Java's `long` is not modelled.
- `Version.parse` prints its captures to standard output. That output is not modelled.
- `Version.compatibleForUse`, `nextMajor`, `nextMinor` and `nextPatch` are not modelled. They only throw `UnsupportedOperationException` and refer to a `SemVer` class that is not part of this model.
- `Versions.Parse` is a hand-written recognizer of the same regular language, not a regular expression engine.
- `StringBuilderWriting.WithCapacity`: the capacity itself is not kept, because a model of a `StringBuilder` has no capacity.

## Findings

| source | as written | input that shows it | evidently intended | confidence | as-written member | corrected member |
|---|---|---|---|---|---|---|
| src/org/tbull/util/BitShuffler.java:214-225 | `shuffleLong` takes bit `i` with the `int` mask `1 << i`. For `i = 31` that mask is negative and sign-extends to bits 31..63. For `i >= 32` the shift distance wraps to `i - 32`. So the bit extracted is not bit `i`. | identity sequence of length 32, `n = 1L << 32`: the result is `1L << 32` | bit `i` of `n` moved to bit `shuffle[i]`, with the `long` mask `1L << i`; the identity of length 32 keeps only the low 32 bits, so the result is 0 | not executed | BitShuffling.ShuffleLongKeepsBit32 | BitShuffling.RoundTripLong |
| src/org/tbull/util/CharSequenceReader.java:209 | the clamp `if (position + len > cslen)` adds two `int`s. When the sum exceeds `Integer.MAX_VALUE` it wraps negative, so the clamp does not fire and `len` stays unclamped. | a sequence of 2^31 - 2 chars, position 2^31 - 3, `read(cbuf, 0, 3)` with `cbuf.length == 3`: a `String` backend throws `IndexOutOfBoundsException` from `getChars`; the char-by-char loop copies one char, then throws and leaves the position at 2^31 - 1 | the read is clamped to the chars remaining and returns 1, as with `len > cslen - position` | not executed | CharSequenceReading.ReadAsWritten | CharSequenceReading.CharSequenceReader.ReadInto |
