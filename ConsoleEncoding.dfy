/**
  `ConsoleEncoding` (SuspendableProcess/CodeFromCoreFX/ConsoleEncoding.cs): an encoding
  that behaves exactly like the one it wraps, except that it has no preamble, so that a
  writer over the child's standard input never sends a byte-order mark.

  A .NET `Encoding` is modelled by what it answers: its four properties, its preamble,
  and a function from each delegated call (with its arguments as values) to its reply.
 */
module ConsoleEncoding {
  import opened Text

  /** The calls `ConsoleEncoding` forwards to the wrapped encoding, one per overload.
      Pointer arguments are the characters or bytes they point at; an output array is
      its length and the index the output starts at. */
  datatype Request =
    | ByteCountOfArray(chars: Option<seq<CodeUnit>>)
    | ByteCountOfPointer(charsAt: seq<CodeUnit>, count: int)
    | ByteCountOfRange(chars: Option<seq<CodeUnit>>, index: int, count: int)
    | ByteCountOfString(s: Option<seq<CodeUnit>>)
    | BytesOfPointer(charsAt: seq<CodeUnit>, charCount: int, byteCount: int)
    | BytesOfArray(chars: Option<seq<CodeUnit>>)
    | BytesOfRange(chars: Option<seq<CodeUnit>>, index: int, count: int)
    | BytesInto(chars: Option<seq<CodeUnit>>, charIndex: int, charCount: int, bytesLength: Option<nat>, byteIndex: int)
    | BytesOfString(s: Option<seq<CodeUnit>>)
    | BytesOfStringInto(s: Option<seq<CodeUnit>>, charIndex: int, charCount: int, bytesLength: Option<nat>, byteIndex: int)
    | CharCountOfPointer(bytesAt: seq<byte>, count: int)
    | CharCountOfArray(bytes: Option<seq<byte>>)
    | CharCountOfRange(bytes: Option<seq<byte>>, index: int, count: int)
    | CharsOfPointer(bytesAt: seq<byte>, byteCount: int, charCount: int)
    | CharsOfArray(bytes: Option<seq<byte>>)
    | CharsOfRange(bytes: Option<seq<byte>>, index: int, count: int)
    | CharsInto(bytes: Option<seq<byte>>, byteIndex: int, byteCount: int, charsLength: Option<nat>, charIndex: int)
    | Decoder
    | Encoder
    | MaxByteCount(charCount: int)
    | MaxCharCount(byteCount: int)
    | StringOf(bytes: Option<seq<byte>>)
    | StringOfRange(bytes: Option<seq<byte>>, index: int, count: int)

  /** What a call gives back: a count, or the bytes or characters it returns (for the
      overloads that write into the caller's memory, the count and what was written from
      the output position on), or the identity of a new stateful decoder or encoder. */
  datatype Reply =
    | Count(count: Result<int>)
    | Bytes(bytes: Result<seq<byte>>)
    | Chars(chars: Result<seq<CodeUnit>>)
    | CountAndBytes(written: Result<int>, bytesWritten: seq<byte>)
    | CountAndChars(read: Result<int>, charsWritten: seq<CodeUnit>)
    | Codec(id: nat)

  /** A .NET `Encoding`, as far as a caller can observe it. */
  datatype Encoding = Encoding(
    codePage: int,
    isSingleByte: bool,
    encodingName: string,
    webName: string,
    preamble: seq<byte>,
    answer: Request -> Reply)

  /** Two encodings no caller can tell apart. */
  ghost predicate SameBehaviour(a: Encoding, b: Encoding) {
    && a.codePage == b.codePage && a.isSingleByte == b.isSingleByte
    && a.encodingName == b.encodingName && a.webName == b.webName
    && a.preamble == b.preamble
    && forall r :: a.answer(r) == b.answer(r)
  }

  /** `new ConsoleEncoding(encoding)`. */
  datatype ConsoleEncoding = ConsoleEncoding(inner: Encoding) {

    function CodePage(): int {
      inner.codePage
    }

    function IsSingleByte(): bool {
      inner.isSingleByte
    }

    function EncodingName(): string {
      inner.encodingName
    }

    function WebName(): string {
      inner.webName
    }

    /** `GetPreamble`: always an empty array, whatever the wrapped encoding's preamble. */
    function GetPreamble(): seq<byte> {
      []
    }

    /** Every other overload: the wrapped encoding's answer to the same call. */
    function Delegate(r: Request): Reply {
      inner.answer(r)
    }

    /** The wrapper seen as an `Encoding` in its own right. It is the wrapped encoding
        in everything but the preamble, which is empty. */
    function AsEncoding(): (e: Encoding)
      ensures e.preamble == []
      ensures e.codePage == inner.codePage && e.isSingleByte == inner.isSingleByte
      ensures e.encodingName == inner.encodingName && e.webName == inner.webName
      ensures forall r :: e.answer(r) == inner.answer(r)
    {
      Encoding(CodePage(), IsSingleByte(), EncodingName(), WebName(), GetPreamble(), Delegate)
    }
  }

  /** The bytes of `text` in encoding `e`: its answer to `GetBytes(char[])`, or nothing
      when that throws. */
  function BytesOf(e: Encoding, text: seq<CodeUnit>): seq<byte> {
    match e.answer(BytesOfArray(Some(text)))
    case Bytes(Ok(b)) => b
    case _ => []
  }

  /** A stand-in for a `StreamWriter` over encoding `e` (`StreamWriter` is not part of
      this model), after the comment at ConsoleEncoding.cs:12-16: it sends the
      preamble, then the bytes of the text. */
  function WriterOutput(e: Encoding, text: seq<CodeUnit>): seq<byte> {
    e.preamble + BytesOf(e, text)
  }

  /** A consequence of `AsEncoding`'s contract: a writer over the wrapper sends the
      text's bytes in the wrapped encoding and nothing before them. */
  lemma WriterSendsNoPreamble(e: Encoding, text: seq<CodeUnit>)
    ensures WriterOutput(ConsoleEncoding(e).AsEncoding(), text) == BytesOf(e, text)
  {
    assert ConsoleEncoding(e).AsEncoding().answer(BytesOfArray(Some(text))) == e.answer(BytesOfArray(Some(text)));
  }

  /** A consequence of `AsEncoding`'s contract: wrapping an encoding that has no
      preamble changes nothing a caller can observe. */
  lemma WrapWithoutPreamble(e: Encoding)
    requires e.preamble == []
    ensures SameBehaviour(ConsoleEncoding(e).AsEncoding(), e)
  {
  }

  /** A consequence of `AsEncoding`'s contract: wrapping twice is the same as wrapping
      once. */
  lemma WrapIdempotent(e: Encoding)
    ensures SameBehaviour(ConsoleEncoding(ConsoleEncoding(e).AsEncoding()).AsEncoding(), ConsoleEncoding(e).AsEncoding())
  {
  }
}
