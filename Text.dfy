/**
  Shared vocabulary of the code-page codec and the launcher: UTF-16 code units
  (the .NET `char`), bytes, the surrogate ranges of section 2 of RFC 2781, and the
  exceptions the source throws, modelled as a `Result`.
 */
module Text {

  /** A .NET `char`: one UTF-16 code unit. Dafny's own `char` cannot hold a lone
      surrogate, so the model uses the 16-bit integer range instead. */
  type CodeUnit = u: int | 0 <= u < 0x1_0000

  /** An unsigned 8-bit value, the element type of `byte[]`. */
  type byte = b: int | 0 <= b < 0x100

  /** `(char)0`, which the encoder uses as "no pending character". */
  const NullChar: CodeUnit := 0

  /** `char.IsHighSurrogate`: U+D800 to U+DBFF (RFC 2781, section 2). */
  predicate IsHighSurrogate(c: CodeUnit) {
    0xD800 <= c <= 0xDBFF
  }

  /** `char.IsLowSurrogate`: U+DC00 to U+DFFF (RFC 2781, section 2). */
  predicate IsLowSurrogate(c: CodeUnit) {
    0xDC00 <= c <= 0xDFFF
  }

  datatype Option<+T> = None | Some(value: T)

  /** The exceptions the core throws. `ArgumentOutOfRange("")` stands for the
      parameterless `new ArgumentOutOfRangeException()`. */
  datatype Error =
    | ArgumentNull(paramName: string)
    | ArgumentOutOfRange(paramName: string)
    | ArgumentError                        // `new ArgumentException()` after a failed OS conversion
    | Win32(code: int)                     // `new Win32Exception(code)`
    | Win32LastError                       // `new Win32Exception()`: the code is read by the exception itself
    | IndexOutOfRange
    | NullReference

  /** A call that either returns a value or throws. */
  datatype Result<+T> = Ok(value: T) | Err(error: Error)

  /** The elements of `s` from index `i` on: what the pointer `p + i` points at when `p`
      points at `s`. Defined one element at a time, so that the solver sees a suffix
      only through the two facts stated here and never as a slice from an index that
      might be 0. */
  function Suffix<T>(s: seq<T>, i: nat): (r: seq<T>)
    requires i <= |s|
    ensures |r| == |s| - i
    ensures forall k :: 0 <= k < |r| ==> r[k] == s[i + k]
    decreases i
  {
    if i == 0 then s else Suffix(s[1..], i - 1)
  }

  /** `s` with `w` written over it from index `at` on. */
  function Overwrite<T>(s: seq<T>, at: nat, w: seq<T>): (r: seq<T>)
    requires at + |w| <= |s|
    ensures |r| == |s|
  {
    s[..at] + w + Suffix(s, at + |w|)
  }

  /** Two adjacent writes are one write of the concatenation. */
  lemma OverwriteTwice<T>(s: seq<T>, at: nat, w1: seq<T>, w2: seq<T>)
    requires at + |w1| + |w2| <= |s|
    ensures Overwrite(Overwrite(s, at, w1), at + |w1|, w2) == Overwrite(s, at, w1 + w2)
  {
    var t := Overwrite(s, at, w1);
    assert t[..at + |w1|] == s[..at] + w1;
    assert Suffix(t, at + |w1| + |w2|) == Suffix(s, at + |w1| + |w2|);
  }

  /** Writing nothing changes nothing. */
  lemma OverwriteNothing<T>(s: seq<T>, at: nat)
    requires at <= |s|
    ensures Overwrite(s, at, []) == s
  {
    assert s[..at] + [] + Suffix(s, at) == s;
  }

  /** Two sequences joined, seen around the point where they meet. */
  lemma SplitAround<T>(a: seq<T>, b: seq<T>)
    requires |a| > 0 && |b| > 0
    ensures a + b == a[..|a| - 1] + ([a[|a| - 1], b[0]] + b[1..])
    ensures |a| == 1 ==> a + b == [a[0], b[0]] + b[1..]
  {
    var r := a[..|a| - 1] + ([a[|a| - 1], b[0]] + b[1..]);
    assert |r| == |a + b|;
    forall k | 0 <= k < |r|
      ensures r[k] == (a + b)[k]
    {
      if k < |a| - 1 {
      } else if k == |a| - 1 {
      } else if k == |a| {
      } else {
        assert r[k] == b[1..][k - |a| - 1];
      }
    }
  }

  /** Writes `src` into `dst` from index `at` on, as the OS does with a caller's buffer. */
  method CopyInto<T>(src: seq<T>, dst: array<T>, at: nat)
    requires at + |src| <= dst.Length
    modifies dst
    ensures dst[..] == Overwrite(old(dst[..]), at, src)
  {
    forall i | 0 <= i < |src| {
      dst[at + i] := src[i];
    }
  }
}
