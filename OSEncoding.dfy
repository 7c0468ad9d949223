/**
  `OSEncoding` (SuspendableProcess/CodeFromCoreFX/OSEncoding.cs): an `Encoding` for one
  Windows code page whose conversions are done by the operating system. The model keeps
  the argument checks, the worst-case size arithmetic, the cached name, the choice of
  decoder and the two wrappers that turn a non-positive OS result into an exception.
 */
module OSEncoding {
  import opened Text
  import K = Kernel32

  const Int32Max := 0x7fff_ffff
  const Int32Min := -0x8000_0000

  predicate IsInt32(x: int) {
    Int32Min <= x <= Int32Max
  }

  /** C#'s unchecked 32-bit `int` arithmetic: the value modulo 2^32, read as signed. */
  function WrapInt32(x: int): (r: int)
    ensures IsInt32(r)
    ensures (r - x) % 0x1_0000_0000 == 0
    ensures IsInt32(x) ==> r == x
  {
    (x - Int32Min) % 0x1_0000_0000 + Int32Min
  }

  // ---------------------------------------------------------------------------
  // The two OS wrappers

  /** What the wrappers make of a raw OS result: a result of 0 or less throws
      `ArgumentException`, any other result is passed on. */
  function CheckResult(raw: int): (r: Result<int>)
    ensures r.Ok? <==> raw > 0
    ensures r.Ok? ==> r.value == raw
    ensures r.Err? ==> r.error == ArgumentError
  {
    if raw <= 0 then Err(ArgumentError) else Ok(raw)
  }

  /** `OSEncoding.WideCharToMultiByte` for an output buffer of `byteCount` bytes
      (0 for the null buffer of a size query). */
  function WideCharToMultiByteChecked(os: K.Os, codePage: int, chars: seq<CodeUnit>, byteCount: int): (r: Result<int>)
    ensures r.Ok? ==> r.value > 0
    ensures r.Ok? ==> r.value == |K.Encoded(os, codePage, chars)|
    ensures byteCount > 0 && r.Ok? ==> r.value <= byteCount
  {
    CheckResult(K.WideCharToMultiByteResult(os, codePage, chars, byteCount))
  }

  /** A size query predicts the conversion into any buffer the size fits into: the same
      result, and the bytes written are all of the encoding. */
  lemma SizeQueryPredicts(os: K.Os, codePage: int, chars: seq<CodeUnit>, byteCount: int)
    requires byteCount > 0 && WideCharToMultiByteChecked(os, codePage, chars, 0).Ok?
    requires WideCharToMultiByteChecked(os, codePage, chars, 0).value <= byteCount
    ensures WideCharToMultiByteChecked(os, codePage, chars, byteCount) == WideCharToMultiByteChecked(os, codePage, chars, 0)
    ensures K.WideCharToMultiByteOutput(os, codePage, chars, byteCount) == K.Encoded(os, codePage, chars)
  {
  }

  /** `OSEncoding.MultiByteToWideChar` for an output buffer of `charCount` characters. */
  function MultiByteToWideCharChecked(os: K.Os, codePage: int, bytes: seq<byte>, charCount: int): (r: Result<int>)
    ensures r.Ok? ==> r.value > 0
    ensures r.Ok? ==> r.value == |K.Decoded(os, codePage, bytes)|
    ensures charCount > 0 && r.Ok? ==> r.value <= charCount
  {
    CheckResult(K.MultiByteToWideCharResult(os, codePage, bytes, charCount))
  }

  /** `OSEncoding.WideCharToMultiByte` with a real output buffer at `bytes[at..]`. */
  method WideCharToMultiByte(os: K.Os, codePage: int, chars: seq<CodeUnit>, bytes: array<byte>, at: nat, byteCount: nat)
    returns (r: Result<int>)
    requires at + byteCount <= bytes.Length
    modifies bytes
    ensures r == WideCharToMultiByteChecked(os, codePage, chars, byteCount)
    ensures bytes[..] == Overwrite(old(bytes[..]), at, K.WideCharToMultiByteOutput(os, codePage, chars, byteCount))
  {
    var result := K.WideCharToMultiByte(os, codePage, chars, bytes, at, byteCount);
    if result <= 0 {
      return Err(ArgumentError);
    }
    return Ok(result);
  }

  /** `OSEncoding.MultiByteToWideChar` with a real output buffer at `chars[at..]`. */
  method MultiByteToWideChar(os: K.Os, codePage: int, bytes: seq<byte>, chars: array<CodeUnit>, at: nat, charCount: nat)
    returns (r: Result<int>)
    requires at + charCount <= chars.Length
    modifies chars
    ensures r == MultiByteToWideCharChecked(os, codePage, bytes, charCount)
    ensures chars[..] == Overwrite(old(chars[..]), at, K.MultiByteToWideCharOutput(os, codePage, bytes, charCount))
  {
    var result := K.MultiByteToWideChar(os, codePage, bytes, chars, at, charCount);
    if result <= 0 {
      return Err(ArgumentError);
    }
    return Ok(result);
  }

  // ---------------------------------------------------------------------------
  // Argument checks

  /** What the checks at the head of `GetBytes` and `GetChars` decide: throw, return 0
      without calling the OS, or convert. */
  datatype Verdict = Reject(error: Error) | ReturnZero | CallOs

  /** The names the checks put into their exceptions. */
  datatype ParamNames = ParamNames(input: string, index: string, count: string, output: string, outIndex: string)

  const BytesNames := ParamNames("chars", "charIndex", "charCount", "bytes", "byteIndex")
  const StringBytesNames := ParamNames("s", "charIndex", "charCount", "bytes", "byteIndex")
  const CharsNames := ParamNames("bytes", "byteIndex", "byteCount", "chars", "charIndex")

  /** The input range is `input[index..index + count]`. */
  predicate InRange(inputLength: nat, index: int, count: int) {
    0 <= index && 0 <= count && index + count <= inputLength
  }

  /** The checks of a conversion into a caller's array: null input or output, a
      negative index or count, a range beyond the input, an output index outside
      `[0, output.Length]`; then no input is 0 even into an empty array, while input
      into an empty array throws. `None` stands for a null array. */
  function ConversionArgs(names: ParamNames, input: Option<nat>, index: int, count: int, output: Option<nat>, outIndex: int)
    : (v: Verdict)
    ensures v.ReturnZero? <==>
      input.Some? && output.Some? && InRange(input.value, index, count) && 0 <= outIndex <= output.value && count == 0
    ensures v.CallOs? <==>
      input.Some? && output.Some? && InRange(input.value, index, count) && 0 <= outIndex <= output.value
      && count > 0 && output.value > 0
    ensures (input.Some? && output.Some? && InRange(input.value, index, count) && 0 <= outIndex <= output.value
             && count > 0 && output.value == 0) ==> v == Reject(ArgumentOutOfRange(""))
    ensures input.None? ==> v == Reject(ArgumentNull(names.input))
    ensures input.Some? && output.None? ==> v == Reject(ArgumentNull(names.output))
  {
    if input.None? || output.None? then
      Reject(ArgumentNull(if input.None? then names.input else names.output))
    else if index < 0 || count < 0 then
      Reject(ArgumentOutOfRange(if index < 0 then names.index else names.count))
    else if input.value - index < count then
      Reject(ArgumentOutOfRange(names.input))
    else if outIndex < 0 || outIndex > output.value then
      Reject(ArgumentOutOfRange(names.outIndex))
    else if count == 0 then
      ReturnZero
    else if output.value == 0 then
      Reject(ArgumentOutOfRange(""))
    else
      CallOs
  }

  /** The checks of a count: null input, a negative index or count, a range beyond
      the input; no input is 0 without an OS call. */
  function CountArgs(inputName: string, input: Option<nat>, index: int, count: int): (v: Verdict)
    ensures v.ReturnZero? <==> input.Some? && InRange(input.value, index, count) && count == 0
    ensures v.CallOs? <==> input.Some? && InRange(input.value, index, count) && count > 0
    ensures input.None? ==> v == Reject(ArgumentNull(inputName))
    ensures input.Some? && !InRange(input.value, index, count) ==> v.Reject? && v.error.ArgumentOutOfRange?
  {
    if input.None? then Reject(ArgumentNull(inputName))
    else if index < 0 || count < 0 then Reject(ArgumentOutOfRange(if index < 0 then "index" else "count"))
    else if input.value - index < count then Reject(ArgumentOutOfRange(inputName))
    else if count == 0 then ReturnZero
    else CallOs
  }

  function LengthOf<T>(a: array?<T>): Option<nat> {
    if a == null then None else Some(a.Length)
  }

  // ---------------------------------------------------------------------------
  // Worst-case sizes

  /** The largest character count `GetMaxByteCount` accepts: 14 * 153391689 <= 2^31 - 1. */
  const MaxCharsForByteCount := 153_391_689

  /** `GetMaxByteCount`: 14 bytes per character, computed in 64 bits; a negative count
      or a product above `int.MaxValue` throws. */
  function GetMaxByteCount(charCount: int): (r: Result<int>)
    requires IsInt32(charCount)
    ensures r.Ok? <==> 0 <= charCount <= MaxCharsForByteCount
    ensures r.Ok? ==> r.value == 14 * charCount && IsInt32(r.value)
    ensures r.Err? ==> r.error == ArgumentOutOfRange("charCount")
  {
    if charCount < 0 then Err(ArgumentOutOfRange("charCount"))
    else
      var byteCount := charCount * 14;  // (long)charCount * 14 cannot overflow
      if byteCount > Int32Max then Err(ArgumentOutOfRange("charCount"))
      else Ok(byteCount)
  }

  /** The largest byte count for which four characters per byte fit in an `int`. */
  const MaxBytesForCharCount := 0x1FFF_FFFF

  /** `GetMaxCharCount` as written: `byteCount * 4` is an `int` product, so it wraps
      before it is widened to `long`, and the overflow check after it never fires. */
  function GetMaxCharCountAsWritten(byteCount: int): (r: Result<int>)
    requires IsInt32(byteCount)
    ensures r.Ok? <==> byteCount >= 0
    ensures r.Ok? ==> r.value == WrapInt32(4 * byteCount)
  {
    if byteCount < 0 then Err(ArgumentOutOfRange("byteCount"))
    else
      var charCount := WrapInt32(byteCount * 4);
      if charCount > Int32Max then Err(ArgumentOutOfRange("byteCount"))
      else Ok(charCount)
  }

  /** The byte count 2^29 makes the unchecked product 2^31 wrap to `int.MinValue`: the
      method returns a negative maximum where the overflow check was meant to throw. */
  lemma GetMaxCharCountWraps()
    ensures GetMaxCharCountAsWritten(0x2000_0000) == Ok(Int32Min)
    ensures GetMaxCharCount(0x2000_0000).Err?
  {
  }

  /** `GetMaxCharCount` as evidently intended: the product is taken in 64 bits (as
      `GetMaxByteCount` does), so a count above `MaxBytesForCharCount` throws. */
  function GetMaxCharCount(byteCount: int): (r: Result<int>)
    requires IsInt32(byteCount)
    ensures r.Ok? <==> 0 <= byteCount <= MaxBytesForCharCount
    ensures r.Ok? ==> r.value == 4 * byteCount && IsInt32(r.value)
    ensures r.Err? ==> r.error == ArgumentOutOfRange("byteCount")
  {
    if byteCount < 0 then Err(ArgumentOutOfRange("byteCount"))
    else
      var charCount := byteCount * 4;
      if charCount > Int32Max then Err(ArgumentOutOfRange("byteCount"))
      else Ok(charCount)
  }

  /** Where the product does not wrap the two versions agree; above it they part. */
  lemma {:induction false} GetMaxCharCountAgreement(byteCount: int)
    requires IsInt32(byteCount)
    ensures byteCount <= MaxBytesForCharCount ==> GetMaxCharCountAsWritten(byteCount) == GetMaxCharCount(byteCount)
    ensures byteCount > MaxBytesForCharCount ==>
      GetMaxCharCountAsWritten(byteCount).Ok? && GetMaxCharCount(byteCount).Err?
  {
  }

  // ---------------------------------------------------------------------------
  // The name

  function DigitChar(d: nat): char
    requires d < 10
  {
    "0123456789"[d]
  }

  predicate AllDigits(s: string) {
    forall i :: 0 <= i < |s| ==> '0' <= s[i] <= '9'
  }

  /** The decimal digits of `n`, as `int.ToString()` writes them. */
  function NatToString(n: nat): (s: string)
    ensures |s| > 0 && AllDigits(s)
    decreases n
  {
    if n < 10 then [DigitChar(n)] else NatToString(n / 10) + [DigitChar(n % 10)]
  }

  /** `int.ToString()` with the invariant culture's minus sign. */
  function IntToString(i: int): string {
    if i < 0 then "-" + NatToString(-i) else NatToString(i)
  }

  function ParseNat(s: string): nat
    requires AllDigits(s)
    decreases |s|
  {
    if |s| == 0 then 0 else 10 * ParseNat(s[..|s| - 1]) + (s[|s| - 1] as int - '0' as int)
  }

  /** Reading the digits back gives the number. */
  lemma {:induction false} ParseNatToString(n: nat)
    ensures ParseNat(NatToString(n)) == n
    decreases n
  {
    if n >= 10 {
      ParseNatToString(n / 10);
      var s := NatToString(n);
      assert s[..|s| - 1] == NatToString(n / 10);
    }
  }

  const NamePrefix := "Codepage - "

  /** The synthesised name of an OS code page. */
  function CodePageName(codePage: int): string {
    NamePrefix + IntToString(codePage)
  }

  /** The number a decimal numeral stands for, with an optional minus sign. */
  function ParseInt(num: string): Option<int> {
    if |num| == 0 then None
    else if num[0] == '-' then
      if |num| > 1 && AllDigits(num[1..]) then Some(-(ParseNat(num[1..]) as int)) else None
    else if AllDigits(num) then Some(ParseNat(num)) else None
  }

  /** Reading a number's numeral back gives the number. */
  lemma IntToStringRoundTrip(i: int)
    ensures ParseInt(IntToString(i)) == Some(i)
  {
    var num := IntToString(i);
    if i < 0 {
      assert num[0] == '-' && num[1..] == NatToString(-i);
      ParseNatToString(-i);
    } else {
      assert '0' <= num[0] <= '9';
      ParseNatToString(i);
    }
  }

  /** The code page a synthesised name stands for. */
  function CodePageOfName(name: string): Option<int> {
    if |name| < |NamePrefix| || name[..|NamePrefix|] != NamePrefix then None
    else ParseInt(name[|NamePrefix|..])
  }

  /** The name determines the code page, so two encodings of different code pages
      never share a name. */
  lemma CodePageNameRoundTrip(codePage: int)
    ensures CodePageOfName(CodePageName(codePage)) == Some(codePage)
  {
    var name := CodePageName(codePage);
    assert name[..|NamePrefix|] == NamePrefix;
    assert name[|NamePrefix|..] == IntToString(codePage);
    IntToStringRoundTrip(codePage);
  }

  lemma CodePageNameInjective(a: int, b: int)
    ensures CodePageName(a) == CodePageName(b) ==> a == b
  {
    CodePageNameRoundTrip(a);
    CodePageNameRoundTrip(b);
  }

  // ---------------------------------------------------------------------------
  // The decoder choice

  /** The double-byte code pages for which `GetDecoder` builds a `DecoderDBCS`. */
  const DbcsCodePages: set<int> := {
    932, 936, 949, 950, 1361, 10001, 10002, 10003, 10008, 20000,
    20001, 20002, 20003, 20004, 20005, 20261, 20932, 20936, 51949 }

  /** The decoder `GetDecoder` returns: a `DecoderDBCS` bound to this encoding, or the
      base class's decoder. */
  datatype DecoderChoice = DecoderDbcs(codePage: int) | BaseDecoder

  // ---------------------------------------------------------------------------
  // The encoding

  class OSEncoding {
    const os: K.Os
    const codePage: int
    /** `_encodingName`: `None` until `EncodingName` is first read. */
    var encodingName: Option<string>

    /** The cache only ever holds the synthesised name. */
    ghost predicate Valid()
      reads this
    {
      encodingName.Some? ==> encodingName.value == CodePageName(codePage)
    }

    constructor (os: K.Os, codePage: int)
      ensures this.os == os && this.codePage == codePage && encodingName == None && Valid()
    {
      this.os := os;
      this.codePage := codePage;
      encodingName := None;
    }

    /** `EncodingName`: computed on first use and cached. */
    method EncodingName() returns (name: string)
      requires Valid()
      modifies this
      ensures Valid()
      ensures name == CodePageName(codePage) && encodingName == Some(name)
    {
      if encodingName.None? {
        encodingName := Some(NamePrefix + IntToString(codePage));
      }
      return encodingName.value;
    }

    /** `WebName` is `EncodingName`. */
    method WebName() returns (name: string)
      requires Valid()
      modifies this
      ensures Valid()
      ensures name == CodePageName(codePage) && encodingName == Some(name)
    {
      name := EncodingName();
    }

    /** `GetByteCount(char[], int, int)`. */
    function GetByteCount(chars: array?<CodeUnit>, index: int, count: int): (r: Result<int>)
      reads chars
      ensures chars == null ==> r == Err(ArgumentNull("chars"))
      ensures chars != null && !InRange(chars.Length, index, count) ==> r.Err? && r.error.ArgumentOutOfRange?
      ensures chars != null && InRange(chars.Length, index, count) && count == 0 ==> r == Ok(0)
      ensures chars != null && InRange(chars.Length, index, count) && count > 0 ==>
        r == WideCharToMultiByteChecked(os, codePage, chars[index..index + count], 0)
    {
      match CountArgs("chars", LengthOf(chars), index, count)
      case Reject(e) => Err(e)
      case ReturnZero => Ok(0)
      case CallOs => WideCharToMultiByteChecked(os, codePage, chars[index..index + count], 0)
    }

    /** `GetByteCount(string)`: a null string throws, an empty one is 0. */
    function GetByteCountOfString(s: Option<seq<CodeUnit>>): (r: Result<int>)
      ensures s.None? ==> r == Err(ArgumentNull("s"))
      ensures s.Some? && |s.value| == 0 ==> r == Ok(0)
      ensures s.Some? && |s.value| > 0 ==> r == WideCharToMultiByteChecked(os, codePage, s.value, 0)
    {
      if s.None? then Err(ArgumentNull("s"))
      else if |s.value| == 0 then Ok(0)
      else WideCharToMultiByteChecked(os, codePage, s.value, 0)
    }

    /** `GetCharCount(byte[], int, int)`. */
    function GetCharCount(bytes: array?<byte>, index: int, count: int): (r: Result<int>)
      reads bytes
      ensures bytes == null ==> r == Err(ArgumentNull("bytes"))
      ensures bytes != null && !InRange(bytes.Length, index, count) ==> r.Err? && r.error.ArgumentOutOfRange?
      ensures bytes != null && InRange(bytes.Length, index, count) && count == 0 ==> r == Ok(0)
      ensures bytes != null && InRange(bytes.Length, index, count) && count > 0 ==>
        r == MultiByteToWideCharChecked(os, codePage, bytes[index..index + count], 0)
    {
      match CountArgs("bytes", LengthOf(bytes), index, count)
      case Reject(e) => Err(e)
      case ReturnZero => Ok(0)
      case CallOs => MultiByteToWideCharChecked(os, codePage, bytes[index..index + count], 0)
    }

    /** `GetBytes(char[], int, int, byte[], int)`: after the checks, the OS converts
        `chars[charIndex..charIndex + charCount]` into `bytes[byteIndex..]`. */
    method GetBytes(chars: array?<CodeUnit>, charIndex: int, charCount: int, bytes: array?<byte>, byteIndex: int)
      returns (r: Result<int>)
      modifies bytes
      ensures var v := ConversionArgs(BytesNames, LengthOf(chars), charIndex, charCount, LengthOf(bytes), byteIndex);
        && (v.Reject? ==> r == Err(v.error))
        && (v.ReturnZero? ==> r == Ok(0))
        && (v.CallOs? ==>
             var input := chars[charIndex..charIndex + charCount];
             && r == WideCharToMultiByteChecked(os, codePage, input, bytes.Length - byteIndex)
             && bytes[..] == Overwrite(old(bytes[..]), byteIndex,
                               K.WideCharToMultiByteOutput(os, codePage, input, bytes.Length - byteIndex)))
        && (!v.CallOs? && bytes != null ==> bytes[..] == old(bytes[..]))
    {
      var v := ConversionArgs(BytesNames, LengthOf(chars), charIndex, charCount, LengthOf(bytes), byteIndex);
      match v
      case Reject(e) => r := Err(e);
      case ReturnZero => r := Ok(0);
      case CallOs =>
        r := WideCharToMultiByte(os, codePage, chars[charIndex..charIndex + charCount], bytes, byteIndex, bytes.Length - byteIndex);
    }

    /** `GetBytes(string, int, int, byte[], int)`: the same, from a string. */
    method GetBytesOfString(s: Option<seq<CodeUnit>>, charIndex: int, charCount: int, bytes: array?<byte>, byteIndex: int)
      returns (r: Result<int>)
      modifies bytes
      ensures var v := ConversionArgs(StringBytesNames, if s.None? then None else Some(|s.value|),
                                      charIndex, charCount, LengthOf(bytes), byteIndex);
        && (v.Reject? ==> r == Err(v.error))
        && (v.ReturnZero? ==> r == Ok(0))
        && (v.CallOs? ==>
             var input := s.value[charIndex..charIndex + charCount];
             && r == WideCharToMultiByteChecked(os, codePage, input, bytes.Length - byteIndex)
             && bytes[..] == Overwrite(old(bytes[..]), byteIndex,
                               K.WideCharToMultiByteOutput(os, codePage, input, bytes.Length - byteIndex)))
        && (!v.CallOs? && bytes != null ==> bytes[..] == old(bytes[..]))
    {
      var v := ConversionArgs(StringBytesNames, if s.None? then None else Some(|s.value|),
                              charIndex, charCount, LengthOf(bytes), byteIndex);
      match v
      case Reject(e) => r := Err(e);
      case ReturnZero => r := Ok(0);
      case CallOs =>
        r := WideCharToMultiByte(os, codePage, s.value[charIndex..charIndex + charCount], bytes, byteIndex, bytes.Length - byteIndex);
    }

    /** `GetChars(byte[], int, int, char[], int)`: after the checks, the OS converts
        `bytes[byteIndex..byteIndex + byteCount]` into `chars[charIndex..]`. */
    method GetChars(bytes: array?<byte>, byteIndex: int, byteCount: int, chars: array?<CodeUnit>, charIndex: int)
      returns (r: Result<int>)
      modifies chars
      ensures var v := ConversionArgs(CharsNames, LengthOf(bytes), byteIndex, byteCount, LengthOf(chars), charIndex);
        && (v.Reject? ==> r == Err(v.error))
        && (v.ReturnZero? ==> r == Ok(0))
        && (v.CallOs? ==>
             var input := bytes[byteIndex..byteIndex + byteCount];
             && r == MultiByteToWideCharChecked(os, codePage, input, chars.Length - charIndex)
             && chars[..] == Overwrite(old(chars[..]), charIndex,
                               K.MultiByteToWideCharOutput(os, codePage, input, chars.Length - charIndex)))
        && (!v.CallOs? && chars != null ==> chars[..] == old(chars[..]))
    {
      var v := ConversionArgs(CharsNames, LengthOf(bytes), byteIndex, byteCount, LengthOf(chars), charIndex);
      match v
      case Reject(e) => r := Err(e);
      case ReturnZero => r := Ok(0);
      case CallOs =>
        r := MultiByteToWideChar(os, codePage, bytes[byteIndex..byteIndex + byteCount], chars, charIndex, chars.Length - charIndex);
    }

    /** `GetDecoder`: a `DecoderDBCS` exactly for the listed double-byte code pages. */
    function GetDecoder(): (d: DecoderChoice)
      ensures d.DecoderDbcs? <==> codePage in DbcsCodePages
      ensures d.DecoderDbcs? ==> d.codePage == codePage
    {
      match codePage
      case 932 | 936 | 949 | 950 | 1361 | 10001 | 10002 | 10003 | 10008 | 20000
         | 20001 | 20002 | 20003 | 20004 | 20005 | 20261 | 20932 | 20936 | 51949 => DecoderDbcs(codePage)
      case _ => BaseDecoder
    }
  }
}
