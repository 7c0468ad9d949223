# SuspendableProcess in Dafny

This project is a Dafny model of the logic at the heart of `SuspendableProcess`. That library starts a Windows process suspended, with redirected standard streams. The model covers:

- **`OSEncoder`**: the stateful code-page encoder. It holds back a trailing high surrogate between calls, and its `Convert` backs off by halving until the output fits.
- **`OSEncoding`**: the code-page encoding. This covers argument validation, worst-case size arithmetic, the synthesised name, and the choice of decoder for double-byte code pages.
- **`ConsoleEncoding`**: a wrapper that suppresses the preamble.
- **`Kernel32.GetLeadByteRanges`**: a loop that copies lead-byte pairs.
- **`SuspendableProcess`**: the launch decisions. These are creation flags, the working-directory default, standard-handle wiring, pipe orientation, the environment block, the `-1` sentinel of `Resume`/`Suspend`, and the choice of console encoding.

How the model is put together:

- **Operating system.** Every Win32 call is a field of an oracle datatype passed as a parameter: `Kernel32.Os` for the codec and `SuspendableProcess.Os` for the launch.
- **Conversion primitives.** `WideCharToMultiByte` and `MultiByteToWideChar` follow the contract Win32 documents:
  - empty input fails (returns 0);
  - a capacity of 0 is a size query that returns the length of the encoding and writes nothing;
  - a capacity that is too small fails;
  - any other capacity writes the encoding and returns its length.
- **Characters.** A C# `char` is a UTF-16 code unit (`Text.CodeUnit`, 0 to 0xFFFF). Surrogate ranges follow section 2 of RFC 2781.
- **Pointers.** A pointer argument is the sequence it points at. Pointer arithmetic `p + i` is `Text.Suffix(s, i)`. Writing through a pointer into the caller's array is `Text.Overwrite`.
- **Mutable state.** `OSEncoder._charLeftOver`, the cached `OSEncoding._encodingName`, and the three handle fields of `SuspendableProcess` are class fields, updated by methods with `modifies` clauses.
- **Encoder steps.** Each encoder call is also specified by a pure step function: `ByteCount`, `EncodeStep`, `ConvertStep` and their array counterparts. The step function gives the result, the bytes written and the new pending character. The methods are proved equal to these functions, and the lemmas are stated over them.

Two behaviours of the source are modelled as written:

1. **`OSEncoding.GetBytes` with `byteIndex == bytes.Length`.** The OS call receives capacity 0, so it performs a size query. The call returns the size and writes nothing (the capacity `bytes.Length - byteIndex` at SuspendableProcess/CodeFromCoreFX/OSEncoding.cs:136).
2. **`OSEncoder.Convert` with `byteCount == 0` and a non-flushing input `[high surrogate]`.** `GetByteCount` gives 0, so the candidate fits. `GetBytes` then returns at its `byteCount == 0` early exit without holding the surrogate back. The result `completed` is therefore true, although the surrogate was neither converted nor held. `OSEncoder.ZeroCapacityCompletes` states this case.

## Model

| member | source | states |
|---|---|---|
| Kernel32.WideCharToMultiByteResult | SuspendableProcess/Interop/Kernel32.cs:132-141 | the OS result is 0 (failure) or the length of the encoding, and never exceeds a positive capacity |
| Kernel32.WideCharToMultiByteOutput | SuspendableProcess/Interop/Kernel32.cs:132-141 | with a positive capacity, exactly as many bytes are written as the call returns; with capacity 0, none |
| Kernel32.WideCharToMultiByte | SuspendableProcess/Interop/Kernel32.cs:132-141 | the call returns the result above and overwrites the caller's buffer at the pointer with the output above, leaving every other byte alone |
| Kernel32.MultiByteToWideCharResult | SuspendableProcess/Interop/Kernel32.cs:143-150 | the decode result is 0 or the length of the decoding, and never exceeds a positive capacity |
| Kernel32.MultiByteToWideCharOutput | SuspendableProcess/Interop/Kernel32.cs:143-150 | with a positive capacity, exactly as many characters are written as the call returns; with capacity 0, none |
| Kernel32.MultiByteToWideChar | SuspendableProcess/Interop/Kernel32.cs:143-150 | the call returns the decode result and overwrites the character buffer at the pointer with the decoded output |
| Kernel32.GetLeadByteRanges | SuspendableProcess/Interop/Kernel32.cs:152-167 | if `GetCPInfoEx` fails, the result is 0 and the buffer is untouched; a null buffer throws when the call succeeds; otherwise the result and the new buffer are those of the pair-copy specification `CopyPairs` |
| Kernel32.CopyLeadBytePairs | SuspendableProcess/Interop/Kernel32.cs:159-164 | the `for` loop, with invariants, computes exactly `CopyPairs` of the old buffer and the code page's lead bytes |
| Kernel32.CopyLoopSpec | SuspendableProcess/Interop/Kernel32.cs:159 | the loop stops after `k` pairs, where `k` is either the limit or the first pair whose first byte in the caller's buffer is 0; every earlier pair has a non-zero first byte; a throw (`IndexOutOfRange`) happens only when the buffer is shorter than the pairs the loop may read |
| Kernel32.CopyPairsSpec | SuspendableProcess/Interop/Kernel32.cs:159-164 | the result is at most 5 (`MAX_LEADBYTES / 2` pairs); for every `j < 2*result`, `out[j]` equals `LeadBytes[j]`; entries from `2*result` on are unchanged; the stop is at the limit or at a 0 in the caller's buffer (not in `cpInfo`); a throw happens only for a buffer shorter than 10 |
| Kernel32.LongBufferNeverThrows | SuspendableProcess/Interop/Kernel32.cs:159 | a buffer of at least 10 bytes never throws, and a buffer whose first byte is 0 yields 0 and stays unchanged, whatever the code page's lead bytes |
| Kernel32.CopyPairsStop | SuspendableProcess/Interop/Kernel32.cs:159-164 | the three exits of the loop: the pair limit or a 0 first byte (normal return), an index past the end at the first byte of a pair, or an index past the end at the second byte of a pair (which has already been copied) |
| OSEncoding.WrapInt32 | SuspendableProcess/CodeFromCoreFX/OSEncoding.cs:204 | C# unchecked `int` arithmetic: the result is a 32-bit value congruent to the exact one modulo 2^32, and equal to it when that is in range |
| OSEncoding.CheckResult | SuspendableProcess/CodeFromCoreFX/OSEncoding.cs:247-261 | an OS result `<= 0` raises `ArgumentException`; a positive one is returned unchanged |
| OSEncoding.WideCharToMultiByteChecked | SuspendableProcess/CodeFromCoreFX/OSEncoding.cs:247-253 | every successful result is positive, is the length of the encoding, and fits a positive capacity |
| OSEncoding.SizeQueryPredicts | SuspendableProcess/CodeFromCoreFX/OSEncoding.cs:247-253 | when a size query succeeds and its answer fits the capacity, the real call returns the same count and writes the whole encoding |
| OSEncoding.MultiByteToWideCharChecked | SuspendableProcess/CodeFromCoreFX/OSEncoding.cs:255-261 | every successful decode result is positive, is the length of the decoding, and fits a positive capacity |
| OSEncoding.WideCharToMultiByte | SuspendableProcess/CodeFromCoreFX/OSEncoding.cs:247-253 | the wrapper returns the checked result and writes exactly what the OS call writes |
| OSEncoding.MultiByteToWideChar | SuspendableProcess/CodeFromCoreFX/OSEncoding.cs:255-261 | the decode wrapper returns the checked result and writes exactly what the OS call writes |
| OSEncoding.ConversionArgs | SuspendableProcess/CodeFromCoreFX/OSEncoding.cs:111-131 | the validation of `GetBytes`/`GetChars`: a null input or output throws `ArgumentNullException` for that parameter; out-of-range index, count or output index throws; zero input returns 0 even when the output array is empty; the OS is called iff everything is in range, the count is positive and the output array is non-empty; non-zero input with an empty output throws |
| OSEncoding.CountArgs | SuspendableProcess/CodeFromCoreFX/OSEncoding.cs:47-65 | the validation of `GetByteCount`/`GetCharCount`: a null array throws `ArgumentNullException`; a negative index or count, or `index + count` beyond the length, throws `ArgumentOutOfRangeException`; a zero count returns 0 with no OS call; the OS is called iff the range is valid and the count is positive |
| OSEncoding.GetMaxByteCount | SuspendableProcess/CodeFromCoreFX/OSEncoding.cs:187-197 | on success the result is `14*charCount` and fits an `int`; it fails with `ArgumentOutOfRange("charCount")` exactly when the count is negative or `14*charCount > 0x7fffffff` |
| OSEncoding.GetMaxCharCountAsWritten | SuspendableProcess/CodeFromCoreFX/OSEncoding.cs:199-210 | as written, it rejects only negative input and returns the 32-bit product `byteCount * 4` |
| OSEncoding.GetMaxCharCountWraps | SuspendableProcess/CodeFromCoreFX/OSEncoding.cs:204-207 | for `byteCount = 0x20000000` the code as written returns `int.MinValue`, where the intended function throws |
| OSEncoding.GetMaxCharCount | SuspendableProcess/CodeFromCoreFX/OSEncoding.cs:199-210 | the corrected method: it succeeds exactly for `0 <= byteCount <= 0x1FFFFFFF` with result `4*byteCount`, and otherwise throws `ArgumentOutOfRange("byteCount")` |
| OSEncoding.GetMaxCharCountAgreement | SuspendableProcess/CodeFromCoreFX/OSEncoding.cs:199-210 | the code as written and the corrected method agree on every count up to `0x1FFFFFFF`; above it the code as written succeeds where the corrected method throws |
| OSEncoding.ParseNatToString | SuspendableProcess/CodeFromCoreFX/OSEncoding.cs:33 | the decimal rendering of a natural number is read back as that number |
| OSEncoding.IntToStringRoundTrip | SuspendableProcess/CodeFromCoreFX/OSEncoding.cs:33 | `int.ToString()` in the invariant culture (minus sign `-`) is read back as the same integer |
| OSEncoding.CodePageNameRoundTrip | SuspendableProcess/CodeFromCoreFX/OSEncoding.cs:33 | the code page can be recovered from `"Codepage - " + codePage` |
| OSEncoding.CodePageNameInjective | SuspendableProcess/CodeFromCoreFX/OSEncoding.cs:33 | different code pages get different encoding names |
| OSEncoding.OSEncoding.constructor | SuspendableProcess/CodeFromCoreFX/OSEncoding.cs:21-25 | the code page is stored and no name is cached yet |
| OSEncoding.OSEncoding.EncodingName | SuspendableProcess/CodeFromCoreFX/OSEncoding.cs:27-37 | the name is `"Codepage - " + codePage`, and after the call it is cached |
| OSEncoding.OSEncoding.WebName | SuspendableProcess/CodeFromCoreFX/OSEncoding.cs:39-45 | the web name equals the encoding name, and the call caches it too |
| OSEncoding.OSEncoding.GetByteCount | SuspendableProcess/CodeFromCoreFX/OSEncoding.cs:47-65 | a null array throws; a bad range throws `ArgumentOutOfRange`; a zero count returns 0; otherwise the result is the checked size query of the selected characters |
| OSEncoding.OSEncoding.GetByteCountOfString | SuspendableProcess/CodeFromCoreFX/OSEncoding.cs:67-80 | a null string throws; the empty string gives 0; otherwise the result is the checked size query of the whole string |
| OSEncoding.OSEncoding.GetCharCount | SuspendableProcess/CodeFromCoreFX/OSEncoding.cs:140-158 | a null array throws; a bad range throws `ArgumentOutOfRange`; a zero count returns 0; otherwise the result is the checked decode size query |
| OSEncoding.OSEncoding.GetBytes | SuspendableProcess/CodeFromCoreFX/OSEncoding.cs:111-138 | each validation verdict leads to its result: a throw, 0 with the array untouched, or the OS call with capacity `bytes.Length - byteIndex` writing from `byteIndex` on |
| OSEncoding.OSEncoding.GetBytesOfString | SuspendableProcess/CodeFromCoreFX/OSEncoding.cs:82-109 | the same for a string input, with the string's parameter names |
| OSEncoding.OSEncoding.GetChars | SuspendableProcess/CodeFromCoreFX/OSEncoding.cs:160-185 | the same for decoding into a character array |
| OSEncoding.OSEncoding.GetDecoder | SuspendableProcess/CodeFromCoreFX/OSEncoding.cs:217-245 | a DBCS decoder for the code page exactly when it is one of the 19 listed double-byte code pages; the base decoder otherwise |
| OSEncoder.GetEncoder | SuspendableProcess/CodeFromCoreFX/OSEncoding.cs:212-215 | a fresh encoder bound to this encoding, with no pending character |
| OSEncoder.LeftOverUnit | SuspendableProcess/CodeFromCoreFX/OSEncoder.cs:214-223 | the temporary buffer holds the pending character, followed by the first input character iff that is a low surrogate |
| OSEncoder.LeftOverAsWritten | SuspendableProcess/CodeFromCoreFX/OSEncoder.cs:211-238 | as written: the output never exceeds the buffer, a size query writes nothing, and a success is positive (but, per the lemma below, may exceed the buffer) |
| OSEncoder.ExactFillOverReports | SuspendableProcess/CodeFromCoreFX/OSEncoder.cs:225-235 | when the pair's bytes exactly fill the buffer, the code as written reports 3 bytes with only 2 written; the corrected `LeftOver` throws instead |
| OSEncoder.LeftOver | SuspendableProcess/CodeFromCoreFX/OSEncoder.cs:211-238 | the corrected behaviour: a successful call into a buffer returns exactly the number of bytes it wrote, and that number fits the buffer; a size query is as written |
| OSEncoder.LeftOverExact | SuspendableProcess/CodeFromCoreFX/OSEncoder.cs:211-238 | when the size query of the pending character and the rest fits the buffer, the real call returns that size and writes that many bytes |
| OSEncoder.ConvertWithLeftOverChar | SuspendableProcess/CodeFromCoreFX/OSEncoder.cs:211-238 | the method returns `LeftOver`'s count and writes its bytes at the pointer: the encoding of `[pending] ++ (first char if it is a low surrogate)`, followed by that of the rest; corrected (see Findings): when the pair fills the buffer exactly it throws instead of adding a size query |
| OSEncoder.ConvertRestOfLeftOver | SuspendableProcess/CodeFromCoreFX/OSEncoder.cs:227-235 | after the first call, the second call's bytes land right after the first call's bytes, and the sum is the result |
| OSEncoder.ByteCount | SuspendableProcess/CodeFromCoreFX/OSEncoder.cs:49-75 | a negative count throws `ArgumentOutOfRange("count")`; a success is non-negative; the pending state is only read |
| OSEncoder.ByteCountOfArray | SuspendableProcess/CodeFromCoreFX/OSEncoder.cs:27-47 | a bad range throws `ArgumentOutOfRange`; an empty array with nothing to flush counts 0 |
| OSEncoder.OSEncoder.GetByteCount | SuspendableProcess/CodeFromCoreFX/OSEncoder.cs:49-75 | the count is `ByteCount` for the current `_charLeftOver`, which it only reads |
| OSEncoder.OSEncoder.GetByteCountOfArray | SuspendableProcess/CodeFromCoreFX/OSEncoder.cs:27-47 | a null array throws `ArgumentNullException("chars")`; otherwise the count is `ByteCountOfArray` of the array's contents for the current `_charLeftOver`, which it only reads |
| OSEncoder.HeldBack | SuspendableProcess/CodeFromCoreFX/OSEncoder.cs:118-121 | a character is held back iff the call does not flush, has input, and ends in a high surrogate; the held value is always NUL or a high surrogate |
| OSEncoder.EncodeStep | SuspendableProcess/CodeFromCoreFX/OSEncoder.cs:107-143 | the output fits `byteCount`; the pending character stays NUL or a high surrogate; a throw leaves it unchanged; `byteCount == 0` returns 0 and changes nothing; a success returns the number of bytes written; a new pending character is the held-back one; a flushing call that succeeds leaves nothing pending; corrected (see Findings): with a pending character it follows `LeftOver`, so when the pair fills the buffer exactly it throws where the code as written reports more bytes than it wrote |
| OSEncoder.ByteCountIsExact | SuspendableProcess/CodeFromCoreFX/OSEncoder.cs:49-143 | if `GetByteCount` succeeds and fits, `GetBytes` on the same state and input returns that count, writes that many bytes and takes the held-back character as its new state |
| OSEncoder.SplitSurrogatePair | SuspendableProcess/CodeFromCoreFX/OSEncoder.cs:107-143 | for a code page that encodes piecewise, splitting a surrogate pair across a non-flushing and a flushing call gives the same bytes and the same total as one flushing call on the joined input, and the first call holds the high surrogate back |
| OSEncoder.FirstCall | SuspendableProcess/CodeFromCoreFX/OSEncoder.cs:118-133 | a non-flushing call ending in a high surrogate converts everything before it and makes that surrogate pending |
| OSEncoder.SecondCall | SuspendableProcess/CodeFromCoreFX/OSEncoder.cs:136-142 | with a pending high surrogate, a flushing call writes the encoding of the pair followed by that of the rest, and leaves nothing pending |
| OSEncoder.Candidates | SuspendableProcess/CodeFromCoreFX/OSEncoder.cs:187-195 | every count the halving loop tries is positive and at most `charCount` |
| OSEncoder.FirstFit | SuspendableProcess/CodeFromCoreFX/OSEncoder.cs:187-195 | the count the back-off settles on is at most the starting count |
| OSEncoder.FirstFitSpec | SuspendableProcess/CodeFromCoreFX/OSEncoder.cs:187-195 | the result is the first of `charCount, charCount/2, ...` whose byte count fits: every larger candidate is too big; if none fits, the result is 0; an error is the byte-count error of the first candidate that failed, after only too-big ones |
| OSEncoder.ConvertStep | SuspendableProcess/CodeFromCoreFX/OSEncoder.cs:180-209 | a negative count throws; `charsUsed` is at most `charCount`; `completed` holds iff nothing is pending afterwards and `charsUsed == charCount > 0`; if nothing fits, all outputs are 0, `completed` is false and the state is unchanged |
| OSEncoder.ConvertSpec | SuspendableProcess/CodeFromCoreFX/OSEncoder.cs:180-209 | `charsUsed` is the first candidate that fits, and `bytesUsed` is its byte count, the number of bytes written, within `byteCount`; when `charsUsed` is 0 every candidate was too big |
| OSEncoder.ZeroCapacityCompletes | SuspendableProcess/CodeFromCoreFX/OSEncoder.cs:187-203 | as written, `Convert` with `byteCount == 0` on a non-flushing lone high surrogate reports one character used, no bytes and `completed`, with nothing pending |
| OSEncoder.BytesArrayChecks | SuspendableProcess/CodeFromCoreFX/OSEncoder.cs:79-95 | the array `GetBytes` reaches the pointer overload iff the ranges are valid, `bytes` is non-empty, and there is input or a pending character to flush; otherwise it returns 0 exactly when the ranges are valid, and throws `ArgumentOutOfRange` otherwise |
| OSEncoder.EncodeArrayStep | SuspendableProcess/CodeFromCoreFX/OSEncoder.cs:77-105 | a success writes within `bytes` from `byteIndex` on; the early exits and throws keep the pending state; the pending character stays NUL or a high surrogate |
| OSEncoder.ConvertArrayChecks | SuspendableProcess/CodeFromCoreFX/OSEncoder.cs:147-168 | the array `Convert` goes on iff both ranges are valid, `bytes` is non-empty, and the char array is non-empty or a pending character is flushed; otherwise it reports `(0, 0, false)` exactly when the ranges are valid, and throws `ArgumentOutOfRange` otherwise |
| OSEncoder.ConvertArrayStep | SuspendableProcess/CodeFromCoreFX/OSEncoder.cs:145-178 | output is written only inside the given byte range; the pending character stays NUL or a high surrogate; a throw keeps it; an empty output array with empty ranges reports `(0, 0, false)` |
| OSEncoder.OSEncoder.constructor | SuspendableProcess/CodeFromCoreFX/OSEncoder.cs:16-20 | the encoder is bound to its encoding and nothing is pending |
| OSEncoder.OSEncoder.Reset | SuspendableProcess/CodeFromCoreFX/OSEncoder.cs:22-25 | after `Reset`, nothing is pending |
| OSEncoder.OSEncoder.GetBytes | SuspendableProcess/CodeFromCoreFX/OSEncoder.cs:107-143 | the method returns `EncodeStep`'s result, makes its pending character the new `_charLeftOver`, and writes its bytes at the pointer; corrected (see Findings) for the exact-fill case, through `EncodeStep` |
| OSEncoder.OSEncoder.GetBytesOfArray | SuspendableProcess/CodeFromCoreFX/OSEncoder.cs:77-105 | a null array throws `ArgumentNullException` and keeps the state and the byte array; otherwise the method follows `EncodeArrayStep`, writing into `bytes` from `byteIndex` on and leaving it untouched when nothing is written |
| OSEncoder.OSEncoder.BackOff | SuspendableProcess/CodeFromCoreFX/OSEncoder.cs:187-195 | the halving `while` loop, with invariants, computes exactly `FirstFit` |
| OSEncoder.OSEncoder.Convert | SuspendableProcess/CodeFromCoreFX/OSEncoder.cs:180-209 | the method returns `ConvertStep`'s result, updates `_charLeftOver` to its pending character and writes its bytes; corrected (see Findings) for the exact-fill case, through `EncodeStep` |
| OSEncoder.OSEncoder.ConvertArray | SuspendableProcess/CodeFromCoreFX/OSEncoder.cs:145-178 | a null array throws `ArgumentNullException` and keeps the state and the byte array; otherwise the method follows `ConvertArrayStep`, writing into `bytes` from `byteIndex` on and leaving it untouched when nothing is written |
| ConsoleEncoding.ConsoleEncoding.AsEncoding | SuspendableProcess/CodeFromCoreFX/ConsoleEncoding.cs:21-164 | the wrapper's preamble is empty; its `CodePage`, `IsSingleByte`, `EncodingName` and `WebName` are the inner encoding's values; every other call, including `GetEncoder`/`GetDecoder` and the max counts, answers exactly as the inner encoding does |
| ConsoleEncoding.WriterSendsNoPreamble | SuspendableProcess/CodeFromCoreFX/ConsoleEncoding.cs:46-49 | a consequence of the delegation in `AsEncoding`: a writer (modelled as preamble then text bytes, after the comment at ConsoleEncoding.cs:12-16) over the wrapper sends the text's bytes in the inner encoding and nothing before them |
| ConsoleEncoding.WrapWithoutPreamble | SuspendableProcess/CodeFromCoreFX/ConsoleEncoding.cs:21-164 | a consequence of the delegation in `AsEncoding`: wrapping an encoding that has no preamble is indistinguishable from the encoding itself |
| ConsoleEncoding.WrapIdempotent | SuspendableProcess/CodeFromCoreFX/ConsoleEncoding.cs:21-164 | a consequence of the delegation in `AsEncoding`: wrapping twice behaves exactly like wrapping once |
| SuspendableProcess.GetSupportedConsoleEncoding | SuspendableProcess/SuspendableProcess.cs:228-243 | the system encoding iff the default code page equals the requested one or is not UTF-8; `OSEncoding` iff the default is UTF-8 and the request is not; UTF-8 without identifier otherwise; the first two keep the requested code page |
| SuspendableProcess.GetEncoding | SuspendableProcess/SuspendableProcess.cs:245-249 | the chosen encoding, always wrapped in `ConsoleEncoding` |
| SuspendableProcess.GetEncodingKeepsCodePage | SuspendableProcess/SuspendableProcess.cs:228-249 | when the runtime's encodings report their own code page, the wrapped result has the requested code page and no preamble |
| SuspendableProcess.AsInt32 | SuspendableProcess/SuspendableProcess.cs:208 | the `uint` returned by the OS is reinterpreted as an `int`: in range and congruent modulo 2^32 |
| SuspendableProcess.ThreadCountResult | SuspendableProcess/SuspendableProcess.cs:206-226 | it throws `Win32Exception` with the last error iff the OS returns `-1`; otherwise it returns the OS value unchanged |
| SuspendableProcess.ThreadCountRoundTrip | SuspendableProcess/SuspendableProcess.cs:206-226 | the raw OS value can be recovered from every successful result, and a throw means the raw value was `0xFFFFFFFF` |
| SuspendableProcess.SuspendableProcess.Resume | SuspendableProcess/SuspendableProcess.cs:206-215 | it throws with the last error iff `ResumeThread` returns `-1`; otherwise it returns that value |
| SuspendableProcess.SuspendableProcess.Suspend | SuspendableProcess/SuspendableProcess.cs:217-226 | it throws with the last error iff `SuspendThread` returns `-1`; otherwise it returns that value |
| SuspendableProcess.Insert | SuspendableProcess/SuspendableProcess.cs:264 | insertion adds exactly the one key |
| SuspendableProcess.SortKeys | SuspendableProcess/SuspendableProcess.cs:264 | the sorted keys are a permutation of the dictionary's keys |
| SuspendableProcess.InsertSorted | SuspendableProcess/SuspendableProcess.cs:264 | inserting into a sorted sequence keeps it sorted under any total preorder |
| SuspendableProcess.SortKeysSorted | SuspendableProcess/SuspendableProcess.cs:264 | the keys are sorted by the comparer, a total preorder left abstract |
| SuspendableProcess.Lookup | SuspendableProcess/SuspendableProcess.cs:272 | a key's value, with an absent (null) value as the empty string |
| SuspendableProcess.BlockSnoc | SuspendableProcess/SuspendableProcess.cs:268-274 | one more iteration appends exactly one `key=value\0` record |
| SuspendableProcess.GetEnvironmentVariablesBlock | SuspendableProcess/SuspendableProcess.cs:251-278 | the `for` loop builds the concatenation of `key + "=" + value + "\0"` over the keys sorted by the comparer |
| SuspendableProcess.BlockLength | SuspendableProcess/SuspendableProcess.cs:251-278 | the block's length is the sum of `\|key\| + \|value\| + 2` over the keys |
| SuspendableProcess.ParseBlockOfBlock | SuspendableProcess/SuspendableProcess.cs:251-278 | when no key contains `=` or NUL and no value contains NUL, splitting the block at NUL and `=` yields the key/value pairs in order |
| SuspendableProcess.BlockHoldsDictionary | SuspendableProcess/SuspendableProcess.cs:251-278 | the block holds every entry of the dictionary and nothing else |
| SuspendableProcess.CreatePipe | SuspendableProcess/SuspendableProcess.cs:280-314 | when the parent writes, the child gets the read end and the parent the write end, and the other way round otherwise; the parent's end is a non-inheritable duplicate, or a throw when duplication fails; the temporary end is disposed when it is valid |
| SuspendableProcess.Wire | SuspendableProcess/SuspendableProcess.cs:53-87 | a redirected stream gets a new pipe's child end and the parent keeps a duplicate; a failing pipe throws the last error; a stream that is not redirected gets the parent's own standard handle, not owned, and nothing is disposed |
| SuspendableProcess.WireStreams | SuspendableProcess/SuspendableProcess.cs:53-87 | `STARTF_USESTDHANDLES` and the three handles are set iff some stream is redirected; handles are made in the order input, output, error, up to the first failure; a failure throws and leaves the startup info empty |
| SuspendableProcess.CreationFlags | SuspendableProcess/SuspendableProcess.cs:89-100 | the flags always contain `CREATE_SUSPENDED`; they contain `CREATE_NO_WINDOW` iff `CreateNoWindow`, and `CREATE_UNICODE_ENVIRONMENT` iff an environment is given; they contain nothing else |
| SuspendableProcess.WorkingDirectory | SuspendableProcess/SuspendableProcess.cs:103-105 | an empty working directory becomes the current directory; any other value, null included, passes through |
| SuspendableProcess.Create | SuspendableProcess/SuspendableProcess.cs:110-151 | the creation call goes out as the user iff a user name is given, with the file name, arguments, flags, defaulted working directory, the sorted environment block iff an environment is given, and the wired startup info |
| SuspendableProcess.SuspendableProcess.constructor | SuspendableProcess/SuspendableProcess.cs:20-22 | no process or thread handle is held |
| SuspendableProcess.SuspendableProcess.StartSuspended | SuspendableProcess/SuspendableProcess.cs:29-204 | the child-side handles made so far are disposed on success and failure alike; a failing pipe throws before the creation call; a failed creation throws with its captured code and changes no field; valid handles are stored; the result is false iff no process handle is held; each redirected stream gets the console encoding of its direction |

## Left out

- Win32 calls (`CreateProcess`, `CreateProcessAsUser`, `CreatePipe`, `DuplicateHandle`, `GetStdHandle`, `GetConsoleCP`, `ResumeThread`, `SuspendThread`, `GetCPInfoEx`, and the two conversion functions) are OS I/O. They appear only as answers of the oracle datatypes.
- `LogonUser` and the `SecureString` password marshalling (SuspendableProcess.cs:112-131) are modelled only as the choice between `CreateProcess` and `CreateProcessAsUser`. The token handle and the password memory are OS resources.
- `lock (createProcessLock)` guards against concurrency, which this sequential model does not have.
- The reflection that stores handles and streams in the `Process` base class, and the construction of `StreamWriter`, `StreamReader` and `FileStream`, are library plumbing. The model keeps only which encoding each redirected stream gets.
- Handle validity is the two raw values 0 and -1. `SafeHandle` finalisation is not modelled. `StartSuspended` disposes only the child-side handles when a later pipe fails; the parent-side handles made so far are left to their finalisers, and the model follows the code here.
- `StringComparer.OrdinalIgnoreCase` is a library comparer, so it is an abstract total preorder. `Array.Sort` is modelled by insertion sort into the sorted order, proved sorted and a permutation. The model does not capture whether the library sort is stable.
- A null dictionary value appends nothing, exactly like an empty string, so null values are modelled as `""`.
- `DecoderDBCS` is not part of this model; only the decision to use it is. The built-in `Encoding.GetEncoding`, `UTF8Encoding` and `Encoder`/`Decoder` behaviour are abstract encodings.
- The explicit null-pointer checks of the pointer overloads are not modelled, because a pointer is modelled as the sequence it points at and is never null. The array overloads' null checks are modelled.
- `OSEncoder.ConvertWithLeftOverChar` is a module-level method that takes the encoder's fields as parameters. It is split into its first call and the rest (`ConvertRestOfLeftOver`) to keep each proof small.
- `OSEncoder.LeftOverAsWritten`: this is the code as written for a buffer that the pair fills exactly, and it is not used by the class (see Findings).
- OSEncoder.EncodeStep, OSEncoder.ConvertWithLeftOverChar, OSEncoder.OSEncoder.GetBytes, OSEncoder.OSEncoder.Convert (and, through them, the array overloads) apply the corrected exact-fill behaviour of the second Findings row: when a pending character's pair fills the buffer exactly and characters remain, they throw `ArgumentException` where the code as written returns a count larger than the bytes it wrote.
- OSEncoding.IntToStringRoundTrip: `int.ToString()` is modelled in the invariant culture, with `-` as the minus sign; other cultures' negative signs are not modelled.
- `OSEncoding.GetMaxCharCountAsWritten`: this is the code as written, and it is not the one the rest of the model relies on (see Findings).
- `OSEncoder.SplitSurrogatePair`: it is stated only for code pages that encode piecewise (`Compositional`) and never fail on a long enough buffer (`Total`). The general oracle promises neither.
- GetMaxByteCount/GetMaxCharCount take 32-bit arguments (`requires IsInt32`), as their C# `int` parameters do.
- The `Debug.Assert` in `ConvertWithLeftOverChar` becomes a precondition: the pending character is not NUL.

## Findings

| source | as written | input that shows it | evidently intended | confidence | as-written member | corrected member |
|---|---|---|---|---|---|---|
| SuspendableProcess/CodeFromCoreFX/OSEncoding.cs:204-207 | `long charCount = byteCount * 4` multiplies in 32-bit `int` before widening, so the overflow check `charCount > 0x7fffffff` can never fire | `GetMaxCharCount(0x20000000)` returns `int.MinValue` | throw `ArgumentOutOfRangeException` for `byteCount > 0x1FFFFFFF` | not executed | OSEncoding.GetMaxCharCountWraps | OSEncoding.GetMaxCharCount |
| SuspendableProcess/CodeFromCoreFX/OSEncoder.cs:225-235 | when the pending pair's bytes exactly fill the buffer, the second `WideCharToMultiByte` gets capacity 0, which the OS treats as a size query, and its answer is added to the result | with a pending high surrogate and input `[low surrogate, 'a']`, in a code page that gives one byte per unit, `byteCount = 2` returns 3 although only 2 bytes were written | fail (as a too-small buffer does) instead of over-reporting | not executed | OSEncoder.ExactFillOverReports | OSEncoder.LeftOver |
