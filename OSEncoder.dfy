/**
  `OSEncoder` (SuspendableProcess/CodeFromCoreFX/OSEncoder.cs): the stateful encoder of an
  `OSEncoding`. Between calls it holds at most one character, a high surrogate that ended
  a non-flushing call (`_charLeftOver`, with `(char)0` for "none"); the next call converts
  it together with a following low surrogate.

  The transitions are pure functions of the pending character and the arguments
  (`ByteCount`, `EncodeStep`, `ConvertStep`), so that their properties can be stated as
  lemmas; the class `OSEncoder` holds the field and its methods perform the same steps
  imperatively, writing into the caller's byte array.
 */
module OSEncoder {
  import opened Text
  import K = Kernel32
  import E = OSEncoding

  /** The only values the pending field ever takes. */
  predicate PendingOk(c: CodeUnit) {
    c == NullChar || IsHighSurrogate(c)
  }

  /** The outcome of one call: what it returns (or throws), the bytes it wrote from the
      start of the output pointer on, and the pending character afterwards. */
  datatype Step<T> = Step(result: Result<T>, output: seq<byte>, pending: CodeUnit)

  /** What `Convert` reports. */
  datatype Converted = Converted(charsUsed: int, bytesUsed: int, completed: bool)

  // ---------------------------------------------------------------------------
  // ConvertWithLeftOverChar

  /** The temporary buffer of `ConvertWithLeftOverChar`: the pending character, followed
      by the first input character when that is a low surrogate. */
  function LeftOverUnit(pending: CodeUnit, chars: seq<CodeUnit>, count: nat): (u: seq<CodeUnit>)
    requires count <= |chars|
    ensures 1 <= |u| <= 2 && u[0] == pending
    ensures |u| == 2 <==> count > 0 && IsLowSurrogate(chars[0])
    ensures |u| == 2 ==> u[1] == chars[0]
  {
    [pending] + (if count > 0 && IsLowSurrogate(chars[0]) then [chars[0]] else [])
  }

  /** `ConvertWithLeftOverChar` as written: converts the temporary buffer, then the rest
      of the input behind it. `toBuffer` is false for the null output of a size query.
      The rest is converted into the space that is left; when the first part filled the
      buffer exactly, that space is 0, which the OS reads as a size query, so the call
      returns more bytes than the buffer holds and writes only the first part. */
  function LeftOverAsWritten(os: K.Os, codePage: int, pending: CodeUnit, chars: seq<CodeUnit>, count: nat, toBuffer: bool,
                             byteCount: int)
    : (r: (Result<int>, seq<byte>))
    requires count <= |chars|
    requires toBuffer ==> byteCount > 0
    ensures toBuffer ==> |r.1| <= byteCount
    ensures !toBuffer ==> r.1 == []
    ensures r.0.Ok? ==> r.0.value > 0
  {
    var unit := LeftOverUnit(pending, chars, count);
    var index := |unit| - 1;
    var cap := if toBuffer then byteCount else 0;
    var first := E.WideCharToMultiByteChecked(os, codePage, unit, cap);
    var out1 := K.WideCharToMultiByteOutput(os, codePage, unit, cap);
    if first.Err? then (first, out1)
    else if count - index > 0 then
      var rest := Suffix(chars[..count], index);
      var cap2 := if toBuffer then byteCount - first.value else 0;
      var second := E.WideCharToMultiByteChecked(os, codePage, rest, cap2);
      // a failed second call (an exception) has written nothing
      (if second.Err? then second else Ok(first.value + second.value), out1 + K.WideCharToMultiByteOutput(os, codePage, rest, cap2))
    else (first, out1)
  }

  /** `ConvertWithLeftOverChar` as intended: when the first part leaves no room for the
      rest, the conversion fails as it does for any buffer that is too small
      (`ArgumentException`), instead of turning into a size query. Otherwise it is the
      code as written. Into a buffer, what it returns is exactly what it wrote. */
  function LeftOver(os: K.Os, codePage: int, pending: CodeUnit, chars: seq<CodeUnit>, count: nat, toBuffer: bool, byteCount: int)
    : (r: (Result<int>, seq<byte>))
    requires count <= |chars|
    requires toBuffer ==> byteCount > 0
    ensures toBuffer ==> |r.1| <= byteCount
    ensures toBuffer && r.0.Ok? ==> r.0.value == |r.1|
    ensures !toBuffer ==> r == LeftOverAsWritten(os, codePage, pending, chars, count, toBuffer, byteCount)
    ensures !toBuffer ==> r.1 == []
    ensures r.0.Ok? ==> r.0.value > 0
  {
    var unit := LeftOverUnit(pending, chars, count);
    var first := E.WideCharToMultiByteChecked(os, codePage, unit, byteCount);
    if toBuffer && first.Ok? && count - (|unit| - 1) > 0 && first.value == byteCount then
      (Err(ArgumentError), K.WideCharToMultiByteOutput(os, codePage, unit, byteCount))
    else LeftOverAsWritten(os, codePage, pending, chars, count, toBuffer, byteCount)
  }

  /** `LeftOverAsWritten` into a buffer, one OS call at a time. */
  lemma AsWrittenInBuffer(os: K.Os, codePage: int, pending: CodeUnit, chars: seq<CodeUnit>, count: nat, byteCount: int)
    requires count <= |chars| && byteCount > 0
    ensures var u := LeftOverUnit(pending, chars, count);
      var i := |u| - 1;
      var first := E.WideCharToMultiByteChecked(os, codePage, u, byteCount);
      var out1 := K.WideCharToMultiByteOutput(os, codePage, u, byteCount);
      var o := LeftOverAsWritten(os, codePage, pending, chars, count, true, byteCount);
      && (first.Err? || count - i <= 0 ==> o == (first, out1))
      && (first.Ok? && count - i > 0 ==>
          var rest := Suffix(chars[..count], i);
          var second := E.WideCharToMultiByteChecked(os, codePage, rest, byteCount - first.value);
          o == (if second.Err? then second else Ok(first.value + second.value),
                out1 + K.WideCharToMultiByteOutput(os, codePage, rest, byteCount - first.value)))
  {
  }

  /** The path of `LeftOver` into a buffer that makes only the first OS call. */
  lemma LeftOverFirstOnly(os: K.Os, codePage: int, pending: CodeUnit, chars: seq<CodeUnit>, count: nat, byteCount: int)
    requires count <= |chars| && byteCount > 0
    requires var u := LeftOverUnit(pending, chars, count);
      E.WideCharToMultiByteChecked(os, codePage, u, byteCount).Err? || count - (|u| - 1) <= 0
    ensures var u := LeftOverUnit(pending, chars, count);
      LeftOver(os, codePage, pending, chars, count, true, byteCount)
        == (E.WideCharToMultiByteChecked(os, codePage, u, byteCount), K.WideCharToMultiByteOutput(os, codePage, u, byteCount))
  {
    AsWrittenInBuffer(os, codePage, pending, chars, count, byteCount);
  }

  /** The path of `LeftOver` on which the first OS call fills the buffer exactly. */
  lemma LeftOverNoRoom(os: K.Os, codePage: int, pending: CodeUnit, chars: seq<CodeUnit>, count: nat, byteCount: int)
    requires count <= |chars| && byteCount > 0
    requires var u := LeftOverUnit(pending, chars, count);
      E.WideCharToMultiByteChecked(os, codePage, u, byteCount) == Ok(byteCount) && count - (|u| - 1) > 0
    ensures var u := LeftOverUnit(pending, chars, count);
      LeftOver(os, codePage, pending, chars, count, true, byteCount)
        == (Err(ArgumentError), K.WideCharToMultiByteOutput(os, codePage, u, byteCount))
  {
  }

  /** The path of `LeftOver` that converts the rest into the `room` the first OS call left. */
  lemma LeftOverBoth(os: K.Os, codePage: int, pending: CodeUnit, chars: seq<CodeUnit>, count: nat, byteCount: int,
                     first: int, rest: seq<CodeUnit>, room: int)
    requires count <= |chars| && byteCount > 0
    requires var u := LeftOverUnit(pending, chars, count);
      && E.WideCharToMultiByteChecked(os, codePage, u, byteCount) == Ok(first) && count - (|u| - 1) > 0
      && rest == Suffix(chars[..count], |u| - 1) && room == byteCount - first > 0
    ensures var u := LeftOverUnit(pending, chars, count);
      var second := E.WideCharToMultiByteChecked(os, codePage, rest, room);
      LeftOver(os, codePage, pending, chars, count, true, byteCount)
        == (if second.Err? then second else Ok(first + second.value),
            K.WideCharToMultiByteOutput(os, codePage, u, byteCount) + K.WideCharToMultiByteOutput(os, codePage, rest, room))
  {
    AsWrittenInBuffer(os, codePage, pending, chars, count, byteCount);
  }

  /** An OS for which every character is one byte `?`. */
  const OneBytePerUnit: K.Os :=
    K.Os((cp: int, s: seq<CodeUnit>) => seq(|s|, _ => 0x3F),
         (cp: int, b: seq<byte>) => seq(|b|, _ => 0x3F),
         (cp: int) => None)

  /** The exact-fill case as written: a pending high surrogate, its low surrogate and one
      more character, into a buffer of two bytes. The pair fills both bytes, the third
      character is only counted, and the call reports three bytes; the corrected
      version throws instead. */
  lemma ExactFillOverReports()
    ensures var r := LeftOverAsWritten(OneBytePerUnit, 0, 0xD800, [0xDC00, 0x61], 2, true, 2);
      r.0 == Ok(3) && |r.1| == 2
    ensures LeftOver(OneBytePerUnit, 0, 0xD800, [0xDC00, 0x61], 2, true, 2).0 == Err(ArgumentError)
  {
    var unit := LeftOverUnit(0xD800, [0xDC00, 0x61], 2);
    assert unit == [0xD800, 0xDC00];
    assert K.Encoded(OneBytePerUnit, 0, unit) == [0x3F, 0x3F];
    assert K.Encoded(OneBytePerUnit, 0, [0xDC00, 0x61][1..2]) == [0x3F];
  }

  // ---------------------------------------------------------------------------
  // The pointer overloads

  /** `GetByteCount(char*, int, bool)`: the number of bytes `GetBytes` would produce. It
      only reads the pending character. */
  function ByteCount(os: K.Os, codePage: int, pending: CodeUnit, chars: seq<CodeUnit>, count: int, flush: bool)
    : (r: Result<int>)
    requires count <= |chars|
    ensures r.Ok? ==> r.value >= 0
    ensures count < 0 ==> r == Err(ArgumentOutOfRange("count"))
  {
    if count < 0 then Err(ArgumentOutOfRange("count"))
    else
      var excludeLastChar := count > 0 && !flush && IsHighSurrogate(chars[count - 1]);
      var n := if excludeLastChar then count - 1 else count;
      if pending == NullChar then
        if n <= 0 then Ok(0) else E.WideCharToMultiByteChecked(os, codePage, chars[..n], 0)
      else if n == 0 && !excludeLastChar && !flush then Ok(0)
      else LeftOver(os, codePage, pending, chars, n, false, 0).0
  }

  /** The character a call holds back: the last one, when the call does not flush and it
      is a high surrogate; `NullChar` otherwise. */
  function HeldBack(chars: seq<CodeUnit>, charCount: int, flush: bool): (c: CodeUnit)
    requires charCount <= |chars|
    ensures PendingOk(c)
    ensures c != NullChar <==> charCount > 0 && !flush && IsHighSurrogate(chars[charCount - 1])
  {
    if charCount > 0 && !flush && IsHighSurrogate(chars[charCount - 1]) then chars[charCount - 1] else NullChar
  }

  /** `GetBytes(char*, int, byte*, int, bool)` with `byteCount` bytes behind the output
      pointer. The early returns give 0 and leave the state alone; a call that throws
      leaves the state alone; a call that returns sets the pending character to the one
      it held back, so it never leaves one behind when it flushes. With a pending
      character it follows the corrected `LeftOver` (see `ExactFillOverReports`). */
  function EncodeStep(os: K.Os, codePage: int, pending: CodeUnit, chars: seq<CodeUnit>, charCount: int, byteCount: int, flush: bool)
    : (s: Step<int>)
    requires charCount <= |chars|
    ensures byteCount > 0 ==> |s.output| <= byteCount
    ensures byteCount <= 0 ==> s.output == []
    ensures PendingOk(pending) ==> PendingOk(s.pending)
    ensures s.result.Err? ==> s.pending == pending
    ensures byteCount == 0 && charCount >= 0 ==> s == Step(Ok(0), [], pending)
    ensures s.result.Ok? ==> s.result.value >= 0
    ensures byteCount > 0 && s.result.Ok? ==> s.result.value == |s.output|
    ensures byteCount > 0 && s.result.Ok? && s.pending != pending ==> s.pending == HeldBack(chars, charCount, flush)
    ensures byteCount > 0 && s.result.Ok? && HeldBack(chars, charCount, flush) != NullChar ==>
      s.pending == HeldBack(chars, charCount, flush)
    ensures flush && byteCount > 0 && s.result.Ok? ==> s.pending == NullChar
  {
    if byteCount < 0 || charCount < 0 then
      Step(Err(ArgumentOutOfRange(if byteCount < 0 then "byteCount" else "charCount")), [], pending)
    else if byteCount == 0 then Step(Ok(0), [], pending)
    else
      var lastChar := HeldBack(chars, charCount, flush);
      var n := if lastChar != NullChar then charCount - 1 else charCount;
      if pending == NullChar then
        if n <= 0 then Step(Ok(0), [], lastChar)
        else
          var r := E.WideCharToMultiByteChecked(os, codePage, chars[..n], byteCount);
          Step(r, K.WideCharToMultiByteOutput(os, codePage, chars[..n], byteCount), if r.Ok? then lastChar else pending)
      else if n == 0 && lastChar == NullChar && !flush then Step(Ok(0), [], pending)
      else
        var r := LeftOver(os, codePage, pending, chars, n, true, byteCount);
        Step(r.0, r.1, if r.0.Ok? then lastChar else pending)
  }

  /** The candidate counts of `Convert`'s back-off: `count`, `count / 2`, `count / 4`, ... down to 1. */
  function Candidates(count: nat): (c: seq<nat>)
    ensures forall i :: 0 <= i < |c| ==> 0 < c[i] <= count
    decreases count
  {
    if count == 0 then [] else [count] + Candidates(count / 2)
  }

  /** The first candidate whose byte count fits into `byteCount`, or 0 when none does. */
  function FirstFit(os: K.Os, codePage: int, pending: CodeUnit, chars: seq<CodeUnit>, count: nat, byteCount: int, flush: bool)
    : (r: Result<nat>)
    requires count <= |chars|
    ensures r.Ok? ==> r.value <= count
    decreases count
  {
    if count == 0 then Ok(0)
    else match ByteCount(os, codePage, pending, chars, count, flush)
      case Err(e) => Err(e)
      case Ok(n) => if n <= byteCount then Ok(count) else FirstFit(os, codePage, pending, chars, count / 2, byteCount, flush)
  }

  /** `Convert(char*, int, byte*, int, bool, ...)`. */
  function ConvertStep(os: K.Os, codePage: int, pending: CodeUnit, chars: seq<CodeUnit>, charCount: int, byteCount: int, flush: bool)
    : (s: Step<Converted>)
    requires charCount <= |chars|
    ensures byteCount > 0 ==> |s.output| <= byteCount
    ensures byteCount <= 0 ==> s.output == []
    ensures PendingOk(pending) ==> PendingOk(s.pending)
    ensures s.result.Err? ==> s.pending == pending
    ensures s.result.Ok? ==>
      var c := s.result.value;
      && 0 <= c.charsUsed <= charCount
      && (c.completed <==> s.pending == NullChar && c.charsUsed == charCount && c.charsUsed > 0)
      && (c.charsUsed == 0 ==> c == Converted(0, 0, false) && s.pending == pending && s.output == [])
  {
    if charCount < 0 || byteCount < 0 then
      Step(Err(ArgumentOutOfRange(if charCount < 0 then "charCount" else "byteCount")), [], pending)
    else match FirstFit(os, codePage, pending, chars, charCount, byteCount, flush)
      case Err(e) => Step(Err(e), [], pending)
      case Ok(count) =>
        if count > 0 then
          var s := EncodeStep(os, codePage, pending, chars, count, byteCount, flush);
          match s.result
          case Err(e) => Step(Err(e), s.output, s.pending)
          case Ok(used) => Step(Ok(Converted(count, used, s.pending == NullChar && charCount == count)), s.output, s.pending)
        else Step(Ok(Converted(0, 0, false)), [], pending)
  }

  // ---------------------------------------------------------------------------
  // What the pointer overloads promise each other

  /** `GetByteCount` predicts `GetBytes`: when the count it gives fits into the buffer,
      `GetBytes` on the same input and state returns that count and writes that many
      bytes (and, into a real buffer, takes the held-back character as its new state). */
  lemma ByteCountIsExact(os: K.Os, codePage: int, pending: CodeUnit, chars: seq<CodeUnit>, count: int, byteCount: int, flush: bool)
    requires count <= |chars|
    requires ByteCount(os, codePage, pending, chars, count, flush).Ok?
    requires 0 <= ByteCount(os, codePage, pending, chars, count, flush).value <= byteCount
    ensures var s := EncodeStep(os, codePage, pending, chars, count, byteCount, flush);
      && s.result == ByteCount(os, codePage, pending, chars, count, flush)
      && |s.output| == s.result.value
      && (byteCount > 0 ==> s.pending == if count == 0 && !flush then pending else HeldBack(chars, count, flush))
  {
    if byteCount > 0 && count >= 0 {
      var lastChar := HeldBack(chars, count, flush);
      var m := if lastChar != NullChar then count - 1 else count;
      if pending == NullChar {
        if m > 0 {
          E.SizeQueryPredicts(os, codePage, chars[..m], byteCount);
        }
      } else if !(m == 0 && lastChar == NullChar && !flush) {
        LeftOverExact(os, codePage, pending, chars, m, byteCount);
      }
    }
  }

  /** The size query of `ConvertWithLeftOverChar` predicts its conversion into a buffer
      the size fits into. */
  lemma LeftOverExact(os: K.Os, codePage: int, pending: CodeUnit, chars: seq<CodeUnit>, count: nat, byteCount: int)
    requires count <= |chars| && byteCount > 0
    requires LeftOver(os, codePage, pending, chars, count, false, 0).0.Ok?
    requires LeftOver(os, codePage, pending, chars, count, false, 0).0.value <= byteCount
    ensures var r := LeftOver(os, codePage, pending, chars, count, true, byteCount);
      r.0 == LeftOver(os, codePage, pending, chars, count, false, 0).0 && |r.1| == r.0.value
  {
    AsWrittenQuery(os, codePage, pending, chars, count);
    var unit := LeftOverUnit(pending, chars, count);
    var i := |unit| - 1;
    var first := E.WideCharToMultiByteChecked(os, codePage, unit, 0);
    assert first.Ok?;
    E.SizeQueryPredicts(os, codePage, unit, byteCount);
    if count - i > 0 {
      var rest := Suffix(chars[..count], i);
      var second := E.WideCharToMultiByteChecked(os, codePage, rest, 0);
      assert second.Ok? && first.value + second.value <= byteCount;
      var room := byteCount - first.value;
      E.SizeQueryPredicts(os, codePage, rest, room);
      LeftOverBoth(os, codePage, pending, chars, count, byteCount, first.value, rest, room);
    } else {
      LeftOverFirstOnly(os, codePage, pending, chars, count, byteCount);
    }
  }

  /** `LeftOver` as a size query, one OS call at a time. */
  lemma AsWrittenQuery(os: K.Os, codePage: int, pending: CodeUnit, chars: seq<CodeUnit>, count: nat)
    requires count <= |chars|
    ensures var u := LeftOverUnit(pending, chars, count);
      var first := E.WideCharToMultiByteChecked(os, codePage, u, 0);
      var o := LeftOver(os, codePage, pending, chars, count, false, 0).0;
      && (first.Err? || count - (|u| - 1) <= 0 ==> o == first)
      && (first.Ok? && count - (|u| - 1) > 0 ==>
          var second := E.WideCharToMultiByteChecked(os, codePage, Suffix(chars[..count], |u| - 1), 0);
          o == if second.Err? then second else Ok(first.value + second.value))
  {
  }

  /** The candidate `c` fits: its byte count is known and at most `byteCount`. */
  predicate Fits(os: K.Os, codePage: int, pending: CodeUnit, chars: seq<CodeUnit>, c: nat, byteCount: int, flush: bool) {
    c <= |chars| && ByteCount(os, codePage, pending, chars, c, flush).Ok?
    && ByteCount(os, codePage, pending, chars, c, flush).value <= byteCount
  }

  /** The candidate `c` is too big: its byte count is known and more than `byteCount`. */
  predicate TooBig(os: K.Os, codePage: int, pending: CodeUnit, chars: seq<CodeUnit>, c: nat, byteCount: int, flush: bool) {
    c <= |chars| && ByteCount(os, codePage, pending, chars, c, flush).Ok?
    && ByteCount(os, codePage, pending, chars, c, flush).value > byteCount
  }

  /** The back-off takes the largest candidate that fits, having found every larger one
      too big; it throws the exception of the first candidate whose count throws. */
  lemma {:induction false} FirstFitSpec(os: K.Os, codePage: int, pending: CodeUnit, chars: seq<CodeUnit>, count: nat,
                                        byteCount: int, flush: bool)
    requires count <= |chars|
    ensures var r := FirstFit(os, codePage, pending, chars, count, byteCount, flush);
      r.Ok? && r.value > 0 ==> r.value in Candidates(count) && Fits(os, codePage, pending, chars, r.value, byteCount, flush)
    ensures var r := FirstFit(os, codePage, pending, chars, count, byteCount, flush);
      r.Ok? ==> forall c :: c in Candidates(count) && c > r.value ==> TooBig(os, codePage, pending, chars, c, byteCount, flush)
    ensures var r := FirstFit(os, codePage, pending, chars, count, byteCount, flush);
      r.Err? ==> exists c :: c in Candidates(count) && ByteCount(os, codePage, pending, chars, c, flush) == Err(r.error)
                           && forall d :: d in Candidates(count) && d > c ==> TooBig(os, codePage, pending, chars, d, byteCount, flush)
    decreases count
  {
    if count > 0 {
      assert Candidates(count) == [count] + Candidates(count / 2);
      var b := ByteCount(os, codePage, pending, chars, count, flush);
      if b.Ok? && b.value > byteCount {
        FirstFitSpec(os, codePage, pending, chars, count / 2, byteCount, flush);
      } else if b.Err? {
        assert count in Candidates(count);
      }
    }
  }

  /** What `Convert` reports: it converts the largest candidate count that fits, every
      larger one being too big, and the bytes it reports are the ones it wrote and the
      ones `GetByteCount` gives for that many characters. When it converts nothing, no
      candidate fits. */
  lemma ConvertSpec(os: K.Os, codePage: int, pending: CodeUnit, chars: seq<CodeUnit>, charCount: int, byteCount: int, flush: bool)
    requires charCount <= |chars|
    ensures var s := ConvertStep(os, codePage, pending, chars, charCount, byteCount, flush);
      s.result.Ok? && s.result.value.charsUsed > 0 ==>
        var c := s.result.value;
        && c.charsUsed in Candidates(charCount)
        && ByteCount(os, codePage, pending, chars, c.charsUsed, flush) == Ok(c.bytesUsed)
        && c.bytesUsed == |s.output| <= byteCount
        && forall d :: d in Candidates(charCount) && d > c.charsUsed ==> TooBig(os, codePage, pending, chars, d, byteCount, flush)
    ensures var s := ConvertStep(os, codePage, pending, chars, charCount, byteCount, flush);
      s.result.Ok? && s.result.value.charsUsed == 0 ==>
        forall d :: d in Candidates(charCount) ==> TooBig(os, codePage, pending, chars, d, byteCount, flush)
  {
    if charCount >= 0 && byteCount >= 0 {
      FirstFitSpec(os, codePage, pending, chars, charCount, byteCount, flush);
      var f := FirstFit(os, codePage, pending, chars, charCount, byteCount, flush);
      if f.Ok? && f.value > 0 {
        ByteCountIsExact(os, codePage, pending, chars, f.value, byteCount, flush);
      }
    }
  }

  /** `Convert` as written with no room at all: a lone high surrogate that does not
      flush counts 0 bytes, so the first candidate fits; `GetBytes` then returns at its
      `byteCount == 0` exit without holding the surrogate back, and the call reports one
      character used and `completed`, although that character is neither converted nor
      pending. */
  lemma ZeroCapacityCompletes()
    ensures ConvertStep(OneBytePerUnit, 0, NullChar, [0xD800], 1, 0, false) == Step(Ok(Converted(1, 0, true)), [], NullChar)
  {
    assert ByteCount(OneBytePerUnit, 0, NullChar, [0xD800], 1, false) == Ok(0);
  }

  /** The code page encodes a concatenation part by part whenever the cut does not
      fall inside a surrogate pair. */
  ghost predicate Compositional(os: K.Os, codePage: int) {
    forall x: seq<CodeUnit>, y: seq<CodeUnit> ::
      |x| > 0 && |y| > 0 && !(IsHighSurrogate(x[|x| - 1]) && IsLowSurrogate(y[0])) ==> Splits(os, codePage, x, y)
  }

  predicate Splits(os: K.Os, codePage: int, x: seq<CodeUnit>, y: seq<CodeUnit>) {
    K.Encoded(os, codePage, x + y) == K.Encoded(os, codePage, x) + K.Encoded(os, codePage, y)
  }

  /** The code page gives at least one byte for any non-empty input. */
  ghost predicate Total(os: K.Os, codePage: int) {
    forall x: seq<CodeUnit> :: |x| > 0 ==> |K.Encoded(os, codePage, x)| > 0
  }

  /** The purpose of the pending character: a surrogate pair split across two calls, the
      first not flushing, is encoded as if the text had come in one flushing call. The
      first call holds the high surrogate back and the second converts it with its low
      surrogate; together they write the encoding of the whole text, and nothing is left
      pending. */
  lemma SplitSurrogatePair(os: K.Os, codePage: int, a: seq<CodeUnit>, b: seq<CodeUnit>, byteCount: int)
    requires Compositional(os, codePage) && Total(os, codePage)
    requires |a| > 0 && IsHighSurrogate(a[|a| - 1]) && |b| > 0 && IsLowSurrogate(b[0])
    requires byteCount >= |K.Encoded(os, codePage, a + b)|
    ensures var s1 := EncodeStep(os, codePage, NullChar, a, |a|, byteCount, false);
      var s2 := EncodeStep(os, codePage, s1.pending, b, |b|, byteCount, true);
      var whole := EncodeStep(os, codePage, NullChar, a + b, |a + b|, byteCount, true);
      && s1.pending == a[|a| - 1] && s2.pending == NullChar
      && s1.result.Ok? && s2.result.Ok? && whole.result.Ok?
      && s1.output + s2.output == whole.output == K.Encoded(os, codePage, a + b)
      && s1.result.value + s2.result.value == whole.result.value
  {
    var e := K.Encoded(os, codePage, a + b);
    var ea := K.Encoded(os, codePage, a[..|a| - 1]);
    var ep := K.Encoded(os, codePage, [a[|a| - 1], b[0]]) + K.Encoded(os, codePage, b[1..]);
    PairSplit(os, codePage, a, b);
    assert e == ea + ep;
    WholeCall(os, codePage, a + b, byteCount);
    assert EncodeStep(os, codePage, NullChar, a + b, |a + b|, byteCount, true) == Step(Ok(|e|), e, NullChar);
    FirstCall(os, codePage, a, byteCount);
    assert EncodeStep(os, codePage, NullChar, a, |a|, byteCount, false) == Step(Ok(|ea|), ea, a[|a| - 1]);
    SecondCall(os, codePage, a[|a| - 1], b, byteCount);
    assert EncodeStep(os, codePage, a[|a| - 1], b, |b|, byteCount, true) == Step(Ok(|ep|), ep, NullChar);
  }

  /** Text that holds a surrogate pair across `a` and `b` encodes as what comes before the
      pair, the pair, and what follows it. */
  lemma PairSplit(os: K.Os, codePage: int, a: seq<CodeUnit>, b: seq<CodeUnit>)
    requires Compositional(os, codePage)
    requires |a| > 0 && IsHighSurrogate(a[|a| - 1]) && |b| > 0 && IsLowSurrogate(b[0])
    ensures K.Encoded(os, codePage, a + b)
         == K.Encoded(os, codePage, a[..|a| - 1]) + (K.Encoded(os, codePage, [a[|a| - 1], b[0]]) + K.Encoded(os, codePage, b[1..]))
  {
    var h := a[|a| - 1];
    var a' := a[..|a| - 1];
    var b' := b[1..];
    var pair := [h, b[0]];
    var ep, eb := K.Encoded(os, codePage, pair), K.Encoded(os, codePage, b');
    // the encoding of everything from the pair on
    assert K.Encoded(os, codePage, pair + b') == ep + eb by {
      if |b'| > 0 {
        assert Splits(os, codePage, pair, b');
      } else {
        assert pair + b' == pair && eb == [];
      }
    }
    SplitAround(a, b);
    if |a'| > 0 {
      assert Splits(os, codePage, a', pair + b');
    }
  }

  /** One flushing call with no pending character writes the whole encoding. */
  lemma WholeCall(os: K.Os, codePage: int, t: seq<CodeUnit>, byteCount: int)
    requires Total(os, codePage) && |t| > 0 && byteCount >= |K.Encoded(os, codePage, t)|
    ensures var e := K.Encoded(os, codePage, t);
      EncodeStep(os, codePage, NullChar, t, |t|, byteCount, true) == Step(Ok(|e|), e, NullChar)
  {
    assert t[..|t|] == t;
  }

  /** A non-flushing call that ends in a high surrogate writes the encoding of what comes
      before it and holds it back. */
  lemma FirstCall(os: K.Os, codePage: int, a: seq<CodeUnit>, byteCount: int)
    requires Total(os, codePage) && |a| > 0 && IsHighSurrogate(a[|a| - 1])
    requires byteCount > 0 && byteCount >= |K.Encoded(os, codePage, a[..|a| - 1])|
    ensures var e := K.Encoded(os, codePage, a[..|a| - 1]);
      EncodeStep(os, codePage, NullChar, a, |a|, byteCount, false) == Step(Ok(|e|), e, a[|a| - 1])
  {
  }

  /** A flushing call after a held-back high surrogate `h` whose input starts with the low
      surrogate writes the encoding of the pair, then that of the rest of its input. */
  lemma SecondCall(os: K.Os, codePage: int, h: CodeUnit, b: seq<CodeUnit>, byteCount: int)
    requires Total(os, codePage) && IsHighSurrogate(h) && |b| > 0 && IsLowSurrogate(b[0])
    requires byteCount >= |K.Encoded(os, codePage, [h, b[0]])| + |K.Encoded(os, codePage, b[1..])|
    ensures var e := K.Encoded(os, codePage, [h, b[0]]) + K.Encoded(os, codePage, b[1..]);
      EncodeStep(os, codePage, h, b, |b|, byteCount, true) == Step(Ok(|e|), e, NullChar)
  {
    var pair := [h, b[0]];
    assert LeftOverUnit(h, b, |b|) == pair;
    assert b[1..|b|] == b[1..];
    var first := |K.Encoded(os, codePage, pair)|;
    assert first > 0;
    if |b| == 1 {
      LeftOverFirstOnly(os, codePage, h, b, |b|, byteCount);
      assert K.Encoded(os, codePage, pair) + K.Encoded(os, codePage, b[1..]) == K.Encoded(os, codePage, pair);
    } else {
      assert |K.Encoded(os, codePage, b[1..])| > 0;
      LeftOverBoth(os, codePage, h, b, |b|, byteCount, first, b[1..|b|], byteCount - first);
    }
  }

  // ---------------------------------------------------------------------------
  // The array overloads

  /** `GetByteCount(char[], int, int, bool)` on a non-null array. Note the test of the
      array's length, not of `count`, before the pointer overload is called. */
  function ByteCountOfArray(os: K.Os, codePage: int, pending: CodeUnit, chars: seq<CodeUnit>, index: int, count: int, flush: bool)
    : (r: Result<int>)
    ensures !E.InRange(|chars|, index, count) ==> r.Err? && r.error.ArgumentOutOfRange?
    ensures |chars| == 0 && (pending == NullChar || !flush) && E.InRange(|chars|, index, count) ==> r == Ok(0)
  {
    if index < 0 || count < 0 then Err(ArgumentOutOfRange(if index < 0 then "index" else "count"))
    else if |chars| - index < count then Err(ArgumentOutOfRange("chars"))
    else if |chars| == 0 && (pending == NullChar || !flush) then Ok(0)
    else ByteCount(os, codePage, pending, Suffix(chars, index), count, flush)
  }

  /** The checks at the head of `GetBytes(char[], int, int, byte[], int, bool)` on
      non-null arrays: the result of an early exit, or `None` when the call goes on to
      the pointer overload. An empty byte array is 0 before anything else is looked at. */
  function BytesArrayChecks(pending: CodeUnit, charsLength: nat, charIndex: int, charCount: int, bytesLength: nat,
                            byteIndex: int, flush: bool)
    : (v: Option<Result<int>>)
    ensures v.None? <==> E.InRange(charsLength, charIndex, charCount) && 0 <= byteIndex <= bytesLength && bytesLength > 0
                         && !(charCount == 0 && (pending == NullChar || !flush))
    ensures v.Some? ==> (v.value == Ok(0) <==> E.InRange(charsLength, charIndex, charCount) && 0 <= byteIndex <= bytesLength)
    ensures v.Some? && v.value.Err? ==> v.value.error.ArgumentOutOfRange?
  {
    if charIndex < 0 || charCount < 0 then Some(Err(ArgumentOutOfRange(if charIndex < 0 then "charIndex" else "charCount")))
    else if charsLength - charIndex < charCount then Some(Err(ArgumentOutOfRange("chars")))
    else if byteIndex < 0 || byteIndex > bytesLength then Some(Err(ArgumentOutOfRange("byteIndex")))
    else if bytesLength == 0 then Some(Ok(0))
    else if charCount == 0 && (pending == NullChar || !flush) then Some(Ok(0))
    else None
  }

  /** `GetBytes(char[], int, int, byte[], int, bool)` on non-null arrays, the output
      counted from `byteIndex`: after the checks, the pointer overload on the characters
      from `charIndex` on and the bytes from `byteIndex` on. */
  function EncodeArrayStep(os: K.Os, codePage: int, pending: CodeUnit, chars: seq<CodeUnit>, charIndex: int, charCount: int,
                           bytesLength: nat, byteIndex: int, flush: bool)
    : (s: Step<int>)
    ensures s.result.Ok? ==> 0 <= byteIndex <= bytesLength && byteIndex + |s.output| <= bytesLength
    ensures s.result.Err? || bytesLength == 0 || (charCount == 0 && (pending == NullChar || !flush)) ==>
      s.pending == pending
    ensures PendingOk(pending) ==> PendingOk(s.pending)
    ensures s.result.Err? ==> s.output == [] || (0 <= byteIndex <= bytesLength && byteIndex + |s.output| <= bytesLength)
  {
    match BytesArrayChecks(pending, |chars|, charIndex, charCount, bytesLength, byteIndex, flush)
    case Some(early) => Step(early, [], pending)
    case None => EncodeStep(os, codePage, pending, Suffix(chars, charIndex), charCount, bytesLength - byteIndex, flush)
  }

  /** The checks at the head of `Convert(char[], int, int, byte[], int, int, bool, ...)`
      on non-null arrays: the result of an early exit, or `None` when the call goes on to
      the pointer overload. Note that the test for no work looks at the arrays' lengths,
      not at `charCount` or `byteCount`. */
  function ConvertArrayChecks(pending: CodeUnit, charsLength: nat, charIndex: int, charCount: int, bytesLength: nat,
                              byteIndex: int, byteCount: int, flush: bool)
    : (v: Option<Result<Converted>>)
    ensures v.None? <==> E.InRange(charsLength, charIndex, charCount) && E.InRange(bytesLength, byteIndex, byteCount)
                         && bytesLength > 0 && !(charsLength == 0 && (pending == NullChar || !flush))
    ensures v.Some? ==> (v.value == Ok(Converted(0, 0, false))
                         <==> E.InRange(charsLength, charIndex, charCount) && E.InRange(bytesLength, byteIndex, byteCount))
    ensures v.Some? && v.value.Err? ==> v.value.error.ArgumentOutOfRange?
  {
    if charIndex < 0 || charCount < 0 then
      Some(Err(ArgumentOutOfRange(if charIndex < 0 then "charIndex" else "charCount")))
    else if byteIndex < 0 || byteCount < 0 then
      Some(Err(ArgumentOutOfRange(if byteIndex < 0 then "byteIndex" else "byteCount")))
    else if charsLength - charIndex < charCount then Some(Err(ArgumentOutOfRange("chars")))
    else if bytesLength - byteIndex < byteCount then Some(Err(ArgumentOutOfRange("bytes")))
    else if bytesLength == 0 || (charsLength == 0 && (pending == NullChar || !flush)) then Some(Ok(Converted(0, 0, false)))
    else None
  }

  /** `Convert(char[], int, int, byte[], int, int, bool, ...)` on non-null arrays: after
      the checks, the pointer overload on the characters from `charIndex` on and the
      `byteCount` bytes from `byteIndex` on. */
  function ConvertArrayStep(os: K.Os, codePage: int, pending: CodeUnit, chars: seq<CodeUnit>, charIndex: int, charCount: int,
                            bytesLength: nat, byteIndex: int, byteCount: int, flush: bool)
    : (s: Step<Converted>)
    ensures s.output != [] ==> 0 <= byteIndex && 0 <= byteCount && byteIndex + byteCount <= bytesLength
                               && |s.output| <= byteCount
    ensures PendingOk(pending) ==> PendingOk(s.pending)
    ensures s.result.Err? ==> s.pending == pending
    ensures bytesLength == 0 && E.InRange(|chars|, charIndex, charCount) && byteIndex == 0 && byteCount == 0 ==>
      s == Step(Ok(Converted(0, 0, false)), [], pending)
  {
    match ConvertArrayChecks(pending, |chars|, charIndex, charCount, bytesLength, byteIndex, byteCount, flush)
    case Some(early) => Step(early, [], pending)
    case None => ConvertStep(os, codePage, pending, Suffix(chars, charIndex), charCount, byteCount, flush)
  }

  /** `ConvertWithLeftOverChar` into a real buffer of `byteCount` bytes at `bytes[at..]`,
      for the encoder's code page and pending character `pending`. Corrected: it follows
      `LeftOver`, not `LeftOverAsWritten`, when the pair fills the buffer exactly. */
  method ConvertWithLeftOverChar(os: K.Os, cp: int, pending: CodeUnit, chars: seq<CodeUnit>, count: nat,
                                 bytes: array<byte>, at: nat, byteCount: int)
    returns (r: Result<int>)
    requires pending != NullChar
    requires count <= |chars| && byteCount > 0 && at + byteCount <= bytes.Length
    modifies bytes
    ensures var outcome := LeftOver(os, cp, pending, chars, count, true, byteCount);
      r == outcome.0 && bytes[..] == Overwrite(old(bytes[..]), at, outcome.1)
  {
    // the two-character stack buffer and the index of the first character after it
    var tempBuffer := LeftOverUnit(pending, chars, count);
    var index := |tempBuffer| - 1;
    ghost var before := bytes[..];
    var result := E.WideCharToMultiByte(os, cp, tempBuffer, bytes, at, byteCount);
    if result.Err? || count - index <= 0 {
      LeftOverFirstOnly(os, cp, pending, chars, count, byteCount);
      return result;
    }
    if byteCount - result.value == 0 {
      // corrected: the code as written makes the second call with capacity 0 here, a
      // size query whose answer it adds although nothing is written (ExactFillOverReports)
      LeftOverNoRoom(os, cp, pending, chars, count, byteCount);
      return Err(ArgumentError);
    }
    r := ConvertRestOfLeftOver(os, cp, pending, chars, count, bytes, at, byteCount, result.value, before);
  }

  /** The second OS call of `ConvertWithLeftOverChar`: the characters after the pair, into
      the `byteCount - first` bytes the pair left. */
  method ConvertRestOfLeftOver(os: K.Os, cp: int, pending: CodeUnit, chars: seq<CodeUnit>, count: nat,
                               bytes: array<byte>, at: nat, byteCount: int, first: int, ghost before: seq<byte>)
    returns (r: Result<int>)
    requires count <= |chars| && byteCount > 0 && at + byteCount <= bytes.Length == |before|
    requires var u := LeftOverUnit(pending, chars, count);
      && E.WideCharToMultiByteChecked(os, cp, u, byteCount) == Ok(first) && count - (|u| - 1) > 0
      && byteCount - first > 0
      && bytes[..] == Overwrite(before, at, K.WideCharToMultiByteOutput(os, cp, u, byteCount))
    modifies bytes
    ensures var outcome := LeftOver(os, cp, pending, chars, count, true, byteCount);
      r == outcome.0 && bytes[..] == Overwrite(before, at, outcome.1)
  {
    var tempBuffer := LeftOverUnit(pending, chars, count);
    var rest := Suffix(chars[..count], |tempBuffer| - 1);
    var room := byteCount - first;
    ghost var out1 := K.WideCharToMultiByteOutput(os, cp, tempBuffer, byteCount);
    ghost var out2 := K.WideCharToMultiByteOutput(os, cp, rest, room);
    var more := E.WideCharToMultiByte(os, cp, rest, bytes, at + first, room);
    OverwriteTwice(before, at, out1, out2);
    r := if more.Err? then more else Ok(first + more.value);
    LeftOverBoth(os, cp, pending, chars, count, byteCount, first, rest, room);
  }

  // ---------------------------------------------------------------------------
  // The encoder object

  class OSEncoder {
    const encoding: E.OSEncoding
    /** `_charLeftOver`. */
    var charLeftOver: CodeUnit

    ghost predicate Valid()
      reads this
    {
      PendingOk(charLeftOver)
    }

    /** `new OSEncoder(encoding)`: no pending character. */
    constructor (encoding: E.OSEncoding)
      ensures this.encoding == encoding && charLeftOver == NullChar && Valid()
    {
      this.encoding := encoding;
      new;
      Reset();
    }

    /** `Reset`: drops the pending character. */
    method Reset()
      modifies this
      ensures charLeftOver == NullChar && Valid()
    {
      charLeftOver := NullChar;
    }

    /** `GetByteCount(char*, int, bool)`: the count for the current pending character,
        which it only reads. */
    function GetByteCount(chars: seq<CodeUnit>, count: int, flush: bool): (r: Result<int>)
      reads this
      requires count <= |chars|
      ensures r == ByteCount(encoding.os, encoding.codePage, charLeftOver, chars, count, flush)
    {
      ByteCount(encoding.os, encoding.codePage, charLeftOver, chars, count, flush)
    }

    /** `GetByteCount(char[], int, int, bool)`: a null array throws; otherwise the count of
        the array's contents for the current pending character. */
    function GetByteCountOfArray(chars: array?<CodeUnit>, index: int, count: int, flush: bool): (r: Result<int>)
      reads this, chars
      ensures chars == null ==> r == Err(ArgumentNull("chars"))
      ensures chars != null ==> r == ByteCountOfArray(encoding.os, encoding.codePage, charLeftOver, chars[..], index, count, flush)
    {
      if chars == null then Err(ArgumentNull("chars"))
      else ByteCountOfArray(encoding.os, encoding.codePage, charLeftOver, chars[..], index, count, flush)
    }

    /** `GetBytes(char*, int, byte*, int, bool)` with the output pointer at `bytes[at..]`. */
    method GetBytes(chars: seq<CodeUnit>, charCount: int, bytes: array<byte>, at: nat, byteCount: int, flush: bool)
      returns (r: Result<int>)
      requires Valid()
      requires charCount <= |chars| && at <= bytes.Length && at + byteCount <= bytes.Length
      modifies this, bytes
      ensures Valid()
      ensures var s := EncodeStep(encoding.os, encoding.codePage, old(charLeftOver), chars, charCount, byteCount, flush);
        r == s.result && charLeftOver == s.pending && bytes[..] == Overwrite(old(bytes[..]), at, s.output)
    {
      OverwriteNothing(bytes[..], at);
      if byteCount < 0 || charCount < 0 {
        return Err(ArgumentOutOfRange(if byteCount < 0 then "byteCount" else "charCount"));
      }
      if byteCount == 0 {
        return Ok(0);
      }
      var lastChar := if charCount > 0 && !flush && IsHighSurrogate(chars[charCount - 1]) then chars[charCount - 1] else NullChar;
      var count := charCount;
      if lastChar != NullChar {
        count := count - 1;
      }
      if charLeftOver == NullChar {
        if count <= 0 {
          charLeftOver := lastChar;
          return Ok(0);
        }
        var result := E.WideCharToMultiByte(encoding.os, encoding.codePage, chars[..count], bytes, at, byteCount);
        if result.Err? {
          return result;
        }
        charLeftOver := lastChar;
        return result;
      }
      if count == 0 && lastChar == NullChar && !flush {
        return Ok(0);
      }
      var res := ConvertWithLeftOverChar(encoding.os, encoding.codePage, charLeftOver, chars, count, bytes, at, byteCount);
      if res.Err? {
        return res;
      }
      charLeftOver := lastChar;
      return res;
    }

    /** `GetBytes(char[], int, int, byte[], int, bool)`. */
    method GetBytesOfArray(chars: array?<CodeUnit>, charIndex: int, charCount: int, bytes: array?<byte>, byteIndex: int, flush: bool)
      returns (r: Result<int>)
      requires Valid()
      modifies this, bytes
      ensures Valid()
      ensures chars == null || bytes == null ==>
        && r == Err(ArgumentNull(if chars == null then "chars" else "bytes")) && charLeftOver == old(charLeftOver)
        && (bytes != null ==> bytes[..] == old(bytes[..]))
      ensures chars != null && bytes != null ==>
        var s := EncodeArrayStep(encoding.os, encoding.codePage, old(charLeftOver), chars[..], charIndex, charCount,
                                 bytes.Length, byteIndex, flush);
        && r == s.result && charLeftOver == s.pending
        && (if s.output == [] then bytes[..] == old(bytes[..])
            else 0 <= byteIndex && byteIndex + |s.output| <= bytes.Length
                 && bytes[..] == Overwrite(old(bytes[..]), byteIndex, s.output))
    {
      if chars == null || bytes == null {
        return Err(ArgumentNull(if chars == null then "chars" else "bytes"));
      }
      var early := BytesArrayChecks(charLeftOver, chars.Length, charIndex, charCount, bytes.Length, byteIndex, flush);
      if early.Some? {
        return early.value;
      }
      ghost var input := chars[..];
      ghost var before := bytes[..];
      r := GetBytes(Suffix(chars[..], charIndex), charCount, bytes, byteIndex, bytes.Length - byteIndex, flush);
      assert chars[..] == input;
      if EncodeStep(encoding.os, encoding.codePage, old(charLeftOver), Suffix(input, charIndex), charCount, bytes.Length - byteIndex, flush).output == [] {
        OverwriteNothing(before, byteIndex);
      }
    }

    /** `Convert(char*, int, byte*, int, bool, ...)`: halves the candidate count until
        its byte count fits, then converts that many characters. */
    method Convert(chars: seq<CodeUnit>, charCount: int, bytes: array<byte>, at: nat, byteCount: int, flush: bool)
      returns (r: Result<Converted>)
      requires Valid()
      requires charCount <= |chars| && at <= bytes.Length && at + byteCount <= bytes.Length
      modifies this, bytes
      ensures Valid()
      ensures var s := ConvertStep(encoding.os, encoding.codePage, old(charLeftOver), chars, charCount, byteCount, flush);
        r == s.result && charLeftOver == s.pending && bytes[..] == Overwrite(old(bytes[..]), at, s.output)
    {
      OverwriteNothing(bytes[..], at);
      if charCount < 0 || byteCount < 0 {
        return Err(ArgumentOutOfRange(if charCount < 0 then "charCount" else "byteCount"));
      }
      var fit := BackOff(chars, charCount, byteCount, flush);
      if fit.Err? {
        return Err(fit.error);
      }
      var count := fit.value;
      if count > 0 {
        // GetBytes can change the pending character
        var bytesUsed := GetBytes(chars, count, bytes, at, byteCount, flush);
        if bytesUsed.Err? {
          return Err(bytesUsed.error);
        }
        return Ok(Converted(count, bytesUsed.value, charLeftOver == NullChar && charCount == count));
      }
      return Ok(Converted(0, 0, false));
    }

    /** The back-off loop of `Convert`: starting from `charCount`, halves the candidate
        count until `GetByteCount` of that many characters fits into `byteCount`. */
    method BackOff(chars: seq<CodeUnit>, charCount: nat, byteCount: int, flush: bool) returns (r: Result<nat>)
      requires charCount <= |chars|
      ensures r == FirstFit(encoding.os, encoding.codePage, charLeftOver, chars, charCount, byteCount, flush)
    {
      var count := charCount;
      while count > 0
        invariant 0 <= count <= charCount
        invariant FirstFit(encoding.os, encoding.codePage, charLeftOver, chars, charCount, byteCount, flush)
               == FirstFit(encoding.os, encoding.codePage, charLeftOver, chars, count, byteCount, flush)
        decreases count
      {
        var returnedByteCount := GetByteCount(chars, count, flush);
        if returnedByteCount.Err? {
          return Err(returnedByteCount.error);
        }
        if returnedByteCount.value <= byteCount {
          break;
        }
        count := count / 2;
      }
      return Ok(count);
    }

    /** `Convert(char[], int, int, byte[], int, int, bool, ...)`. */
    method ConvertArray(chars: array?<CodeUnit>, charIndex: int, charCount: int, bytes: array?<byte>, byteIndex: int,
                        byteCount: int, flush: bool)
      returns (r: Result<Converted>)
      requires Valid()
      modifies this, bytes
      ensures Valid()
      ensures chars == null || bytes == null ==>
        && r == Err(ArgumentNull(if chars == null then "chars" else "bytes")) && charLeftOver == old(charLeftOver)
        && (bytes != null ==> bytes[..] == old(bytes[..]))
      ensures chars != null && bytes != null ==>
        var s := ConvertArrayStep(encoding.os, encoding.codePage, old(charLeftOver), chars[..], charIndex, charCount,
                                  bytes.Length, byteIndex, byteCount, flush);
        && r == s.result && charLeftOver == s.pending
        && (if s.output == [] then bytes[..] == old(bytes[..])
            else 0 <= byteIndex && byteIndex + |s.output| <= bytes.Length
                 && bytes[..] == Overwrite(old(bytes[..]), byteIndex, s.output))
    {
      if chars == null || bytes == null {
        return Err(ArgumentNull(if chars == null then "chars" else "bytes"));
      }
      var early := ConvertArrayChecks(charLeftOver, chars.Length, charIndex, charCount, bytes.Length, byteIndex, byteCount, flush);
      if early.Some? {
        return early.value;
      }
      r := Convert(Suffix(chars[..], charIndex), charCount, bytes, byteIndex, byteCount, flush);
    }
  }

  /** `OSEncoding.GetEncoder`: a fresh encoder bound to `encoding`, with no pending
      character. (It lives here because the encoder's module imports the encoding's.) */
  method GetEncoder(encoding: E.OSEncoding) returns (e: OSEncoder)
    ensures fresh(e) && e.encoding == encoding && e.charLeftOver == NullChar && e.Valid()
  {
    e := new OSEncoder(encoding);
  }
}
