/**
  The operating-system side of the code-page codec (SuspendableProcess/Interop/Kernel32.cs).
  The Win32 conversion functions and `GetCPInfoEx` are foreign calls, so they are an
  oracle `Os` whose tables are arbitrary functions; the only code of the file that is a
  program in its own right, `GetLeadByteRanges`, is modelled over an array.
 */
module Kernel32 {
  import opened Text

  /** `MAX_LEADBYTES`: the size of `CPINFOEX.LeadBytes`. */
  const MaxLeadBytes := 12

  type LeadBytes = s: seq<byte> | |s| == MaxLeadBytes witness [0, 0, 0, 0, 0, 0, 0, 0, 0, 0, 0, 0]

  /** The part of `CPINFOEX` the core reads. */
  datatype CpInfoEx = CpInfoEx(maxCharSize: int, leadBytes: LeadBytes)

  /** The code-page tables of the operating system. `wideToMulti(cp, s)` is what
      `WideCharToMultiByte` produces for `s` in code page `cp` (empty when the OS refuses
      the conversion), `multiToWide` likewise for `MultiByteToWideChar`, and `cpInfoEx(cp)`
      the answer of `GetCPInfoEx` (`None` when it returns false). */
  datatype Os = Os(
    wideToMulti: (int, seq<CodeUnit>) -> seq<byte>,
    multiToWide: (int, seq<byte>) -> seq<CodeUnit>,
    cpInfoEx: int -> Option<CpInfoEx>)

  /** The bytes of `chars` in code page `codePage`; an empty input is refused
      (a character count of 0 is an invalid parameter for the OS). */
  function Encoded(os: Os, codePage: int, chars: seq<CodeUnit>): seq<byte> {
    if |chars| == 0 then [] else os.wideToMulti(codePage, chars)
  }

  /** The return value of `WideCharToMultiByte` for an output buffer of `cbMultiByte`
      bytes: 0 bytes is a size query, which returns the size and writes nothing; a buffer
      that is too small makes the call fail with 0. */
  function WideCharToMultiByteResult(os: Os, codePage: int, chars: seq<CodeUnit>, cbMultiByte: int): (r: nat)
    ensures r == 0 || r == |Encoded(os, codePage, chars)|
    ensures cbMultiByte > 0 ==> r <= cbMultiByte
  {
    var e := Encoded(os, codePage, chars);
    if cbMultiByte == 0 then |e| else if |e| <= cbMultiByte then |e| else 0
  }

  /** The bytes `WideCharToMultiByte` writes into an output buffer of `cbMultiByte` bytes. */
  function WideCharToMultiByteOutput(os: Os, codePage: int, chars: seq<CodeUnit>, cbMultiByte: int): (w: seq<byte>)
    ensures cbMultiByte > 0 ==> |w| == WideCharToMultiByteResult(os, codePage, chars, cbMultiByte)
    ensures cbMultiByte <= 0 ==> w == []
  {
    var e := Encoded(os, codePage, chars);
    if cbMultiByte > 0 && |e| <= cbMultiByte then e else []
  }

  /** `WideCharToMultiByte` with an output buffer of `cbMultiByte` bytes at `bytes[at..]`. */
  method WideCharToMultiByte(os: Os, codePage: int, chars: seq<CodeUnit>, bytes: array<byte>, at: nat, cbMultiByte: nat)
    returns (result: nat)
    requires at + cbMultiByte <= bytes.Length
    modifies bytes
    ensures result == WideCharToMultiByteResult(os, codePage, chars, cbMultiByte)
    ensures bytes[..] == Overwrite(old(bytes[..]), at, WideCharToMultiByteOutput(os, codePage, chars, cbMultiByte))
  {
    var e := Encoded(os, codePage, chars);
    if cbMultiByte == 0 {
      result := |e|;
    } else if |e| <= cbMultiByte {
      CopyInto(e, bytes, at);
      result := |e|;
    } else {
      result := 0;
    }
  }

  /** The characters of `bytes` in code page `codePage`; an empty input is refused. */
  function Decoded(os: Os, codePage: int, bytes: seq<byte>): seq<CodeUnit> {
    if |bytes| == 0 then [] else os.multiToWide(codePage, bytes)
  }

  /** The return value of `MultiByteToWideChar` for an output buffer of `cchWideChar`
      characters, with the same size-query and too-small rules. */
  function MultiByteToWideCharResult(os: Os, codePage: int, bytes: seq<byte>, cchWideChar: int): (r: nat)
    ensures r == 0 || r == |Decoded(os, codePage, bytes)|
    ensures cchWideChar > 0 ==> r <= cchWideChar
  {
    var d := Decoded(os, codePage, bytes);
    if cchWideChar == 0 then |d| else if |d| <= cchWideChar then |d| else 0
  }

  /** The characters `MultiByteToWideChar` writes into an output buffer of `cchWideChar` characters. */
  function MultiByteToWideCharOutput(os: Os, codePage: int, bytes: seq<byte>, cchWideChar: int): (w: seq<CodeUnit>)
    ensures cchWideChar > 0 ==> |w| == MultiByteToWideCharResult(os, codePage, bytes, cchWideChar)
    ensures cchWideChar <= 0 ==> w == []
  {
    var d := Decoded(os, codePage, bytes);
    if cchWideChar > 0 && |d| <= cchWideChar then d else []
  }

  /** `MultiByteToWideChar` with an output buffer of `cchWideChar` characters at `chars[at..]`. */
  method MultiByteToWideChar(os: Os, codePage: int, bytes: seq<byte>, chars: array<CodeUnit>, at: nat, cchWideChar: nat)
    returns (result: nat)
    requires at + cchWideChar <= chars.Length
    modifies chars
    ensures result == MultiByteToWideCharResult(os, codePage, bytes, cchWideChar)
    ensures chars[..] == Overwrite(old(chars[..]), at, MultiByteToWideCharOutput(os, codePage, bytes, cchWideChar))
  {
    var d := Decoded(os, codePage, bytes);
    if cchWideChar == 0 {
      result := |d|;
    } else if |d| <= cchWideChar {
      CopyInto(d, chars, at);
      result := |d|;
    } else {
      result := 0;
    }
  }

  // ---------------------------------------------------------------------------
  // GetLeadByteRanges

  /** How far the copy loop of `GetLeadByteRanges` gets over the part `t` of the caller's
      buffer that starts at the next pair, with at most `n` pairs to go: the number of
      pairs it copies (or the exception it throws) and how many bytes of `t` it has
      overwritten by then. The loop tests the caller's byte, which it has not yet
      overwritten, before copying a pair. */
  function CopyLoop(t: seq<byte>, n: nat): (r: (Result<nat>, nat))
    ensures r.1 <= |t| && r.1 <= 2 * n
  {
    if n == 0 then (Ok(0), 0)
    else if |t| == 0 then (Err(IndexOutOfRange), 0)
    else if t[0] == 0 then (Ok(0), 0)
    else if |t| == 1 then (Err(IndexOutOfRange), 1)
    else
      var rest := CopyLoop(t[2..], n - 1);
      (Plus(rest.0, 1), rest.1 + 2)
  }

  /** `n` more pairs on top of an outcome. */
  function Plus(r: Result<nat>, n: nat): Result<nat> {
    if r.Ok? then Ok(r.value + n) else r
  }

  /** The five pairs of bytes the loop may copy (it leaves the last two of the twelve). */
  const MaxPairs := 5

  /** The outcome of the copy loop over the caller's buffer `s`: the number of pairs (or
      the exception) and the buffer afterwards, whose overwritten prefix comes from the
      code page's `LeadBytes`. */
  function CopyPairs(s: seq<byte>, lead: LeadBytes): (Result<nat>, seq<byte>) {
    var (r, w) := CopyLoop(s, MaxPairs);
    (r, lead[..w] + s[w..])
  }

  /** `Interop.Kernel32.GetLeadByteRanges`: copies lead-byte pairs of code page
      `codePage` into the caller's buffer while the caller's first byte of the pair is
      non-zero, at most five pairs, and returns the number of pairs copied. */
  method GetLeadByteRanges(os: Os, codePage: int, leadByteRanges: array?<byte>) returns (r: Result<nat>)
    modifies leadByteRanges
    ensures os.cpInfoEx(codePage).None? ==> r == Ok(0)
    ensures os.cpInfoEx(codePage).Some? && leadByteRanges == null ==> r == Err(NullReference)
    ensures leadByteRanges != null ==> (
      if os.cpInfoEx(codePage).None? then leadByteRanges[..] == old(leadByteRanges[..])
      else (r, leadByteRanges[..]) == CopyPairs(old(leadByteRanges[..]), os.cpInfoEx(codePage).value.leadBytes))
  {
    var cpInfo := os.cpInfoEx(codePage);
    if cpInfo.Some? {
      if leadByteRanges == null {
        return Err(NullReference);
      }
      r := CopyLeadBytePairs(cpInfo.value.leadBytes, leadByteRanges);
      return;
    }
    return Ok(0);
  }

  /** The copy loop of `GetLeadByteRanges`. */
  method CopyLeadBytePairs(lead: LeadBytes, leadByteRanges: array<byte>) returns (r: Result<nat>)
    modifies leadByteRanges
    ensures (r, leadByteRanges[..]) == CopyPairs(old(leadByteRanges[..]), lead)
  {
    ghost var start: seq<byte> := leadByteRanges[..];
    var count := 0;
    var i := 0;
    while i < 10
      invariant i == 2 * count && count <= MaxPairs && i <= |start| == leadByteRanges.Length
      invariant forall j :: 0 <= j < i ==> leadByteRanges[j] == lead[j]
      invariant forall j :: i <= j < |start| ==> leadByteRanges[j] == start[j]
      invariant forall m :: 0 <= m < count ==> start[2 * m] != 0
      decreases 10 - i
    {
      if i >= leadByteRanges.Length {
        CopyPairsStop(start, lead, count);
        assert leadByteRanges[..] == lead[..i] + start[i..];
        return Err(IndexOutOfRange);
      }
      if leadByteRanges[i] == 0 {
        break;
      }
      leadByteRanges[i] := lead[i];
      if i + 1 >= leadByteRanges.Length {
        CopyPairsStop(start, lead, count);
        assert leadByteRanges[..] == lead[..i + 1] + start[i + 1..];
        return Err(IndexOutOfRange);
      }
      leadByteRanges[i + 1] := lead[i + 1];
      count := count + 1;
      i := i + 2;
    }
    CopyPairsStop(start, lead, count);
    assert leadByteRanges[..] == lead[..i] + start[i..];
    return Ok(count);
  }

  /** Where the loop stops, having passed `k` pairs whose first byte is non-zero. */
  lemma CopyPairsStop(s: seq<byte>, lead: LeadBytes, k: nat)
    requires k <= MaxPairs && 2 * k <= |s|
    requires forall m :: 0 <= m < k ==> s[2 * m] != 0
    ensures k == MaxPairs || (2 * k < |s| && s[2 * k] == 0) ==> CopyPairs(s, lead) == (Ok(k), lead[..2 * k] + s[2 * k..])
    ensures k < MaxPairs && 2 * k == |s| ==> CopyPairs(s, lead) == (Err(IndexOutOfRange), lead[..2 * k] + s[2 * k..])
    ensures k < MaxPairs && 2 * k + 1 == |s| && s[2 * k] != 0 ==>
      CopyPairs(s, lead) == (Err(IndexOutOfRange), lead[..2 * k + 1] + s[2 * k + 1..])
  {
    CopyLoopPrefix(s, k);
  }

  /** After `k` pairs whose first byte is non-zero, the loop goes on with the rest of the
      buffer. */
  lemma {:induction false} CopyLoopPrefix(s: seq<byte>, k: nat)
    requires k <= MaxPairs && 2 * k <= |s|
    requires forall m :: 0 <= m < k ==> s[2 * m] != 0
    ensures var rest := CopyLoop(s[2 * k..], MaxPairs - k);
      CopyLoop(s, MaxPairs) == (Plus(rest.0, k), rest.1 + 2 * k)
  {
    if k > 0 {
      CopyLoopPrefix(s, k - 1);
      assert s[2 * (k - 1)..][0] == s[2 * (k - 1)] != 0;
      assert s[2 * (k - 1)..][2..] == s[2 * k..];
    }
  }

  lemma {:induction false} CopyLoopSpec(t: seq<byte>, n: nat)
    ensures var (r, w) := CopyLoop(t, n);
      && (r.Ok? ==>
        && w == 2 * r.value && r.value <= n
        && (r.value == n || (w < |t| && t[w] == 0))
        && (forall m :: 0 <= m < r.value ==> t[2 * m] != 0))
      && (r.Err? ==> r.error == IndexOutOfRange && |t| < 2 * n)
  {
    if n > 0 && |t| > 1 && t[0] != 0 {
      CopyLoopSpec(t[2..], n - 1);
      var (r, w) := CopyLoop(t[2..], n - 1);
      if r.Ok? {
        forall m | 0 <= m < r.value + 1
          ensures t[2 * m] != 0
        {
          if m > 0 {
            assert t[2 * m] == t[2..][2 * (m - 1)];
          }
        }
      }
    }
  }

  /** The copy loop copies at most five pairs; every copied byte comes from the code
      page's `LeadBytes` and every byte past the copied pairs is the caller's; the loop
      stopped after five pairs or at a pair whose first byte in the caller's buffer is 0,
      with every earlier pair's first byte non-zero; and it throws only on a buffer
      shorter than ten bytes. */
  lemma CopyPairsSpec(s: seq<byte>, lead: LeadBytes)
    ensures var (r, out) := CopyPairs(s, lead);
      && |out| == |s|
      && (r.Ok? ==>
        && r.value <= MaxPairs && 2 * r.value <= |s|
        && (forall j :: 0 <= j < 2 * r.value ==> out[j] == lead[j])
        && (forall j :: 2 * r.value <= j < |s| ==> out[j] == s[j])
        && (r.value == MaxPairs || (2 * r.value < |s| && s[2 * r.value] == 0))
        && (forall m :: 0 <= m < r.value ==> s[2 * m] != 0))
      && (r.Err? ==> r.error == IndexOutOfRange && |s| < 2 * MaxPairs)
  {
    CopyLoopSpec(s, MaxPairs);
  }

  /** A caller's buffer of at least ten bytes never makes the loop throw, and one whose
      first byte is 0 (a zero-filled buffer, say) yields no pair and is left as it was. */
  lemma LongBufferNeverThrows(s: seq<byte>, lead: LeadBytes)
    requires |s| >= 10
    ensures CopyPairs(s, lead).0.Ok?
    ensures s[0] == 0 ==> CopyPairs(s, lead) == (Ok(0), s)
  {
    CopyLoopSpec(s, MaxPairs);
    assert lead[..0] + s[0..] == s;
  }
}
