/**
  The launch decisions of `SuspendableProcess` (SuspendableProcess/SuspendableProcess.cs):
  how `StartSuspended` wires the child's standard handles, assembles the creation flags,
  defaults the working directory and serialises the environment; how `CreatePipe`
  orients a pipe; how `Resume` and `Suspend` map the OS sentinel to an exception; and
  which encoding each redirected stream gets.

  Every Win32 call is an answer of the oracle `Os`.
 */
module SuspendableProcess {
  import opened Text
  import CE = ConsoleEncoding

  type uint32 = n: int | 0 <= n < 0x1_0000_0000

  // ---------------------------------------------------------------------------
  // Flags

  /** `CREATE_PROCESS.CREATE_SUSPENDED`. */
  const CreateSuspended: bv32 := 0x0000_0004
  /** `CREATE_PROCESS.CREATE_UNICODE_ENVIRONMENT`. */
  const CreateUnicodeEnvironment: bv32 := 0x0000_0400
  /** `CREATE_PROCESS.CREATE_NO_WINDOW`. */
  const CreateNoWindow: bv32 := 0x0800_0000
  /** `STARTF.STARTF_USESTDHANDLES`. */
  const StartfUseStdHandles: bv32 := 0x0000_0100

  // ---------------------------------------------------------------------------
  // Handles and the OS

  /** A raw handle value is unusable when it is null or `INVALID_HANDLE_VALUE`. */
  predicate IsInvalid(h: int) {
    h == 0 || h == -1
  }

  /** A `SafeHFILE`: a handle value and whether disposing it closes the handle. */
  datatype SafeHandle = SafeHandle(handle: int, ownsHandle: bool)

  /** Whether disposing `s` closes an OS handle. */
  predicate Closes(s: SafeHandle) {
    s.ownsHandle && !IsInvalid(s.handle)
  }

  datatype Stream = StdInput | StdOutput | StdError

  /** The two ends of an anonymous pipe. */
  datatype Pipe = Pipe(readEnd: int, writeEnd: int)

  /** `STARTUPINFO`, as far as the launch fills it in. */
  datatype StartupInfo = StartupInfo(flags: bv32, stdInput: int, stdOutput: int, stdError: int)

  /** The arguments of `CreateProcess` (or of `CreateProcessAsUser`, when `asUser`). Both
      security attributes are non-inheritable and handles are always inherited. */
  datatype CreateRequest = CreateRequest(
    asUser: bool,
    fileName: string,
    arguments: string,
    creationFlags: bv32,
    environment: Option<string>,
    workingDirectory: Option<string>,
    startupInfo: StartupInfo)

  /** `PROCESS_INFORMATION`. */
  datatype ProcessInformation = ProcessInformation(hProcess: int, hThread: int, processId: int)

  /** The answers of the operating system and the runtime. `createPipe(s)` is the pipe made
      for stream `s`; `duplicateHandle(h)` is a non-inheritable duplicate of `h`, `None`
      when `DuplicateHandle` fails; `createProcess` is `None` when creation fails;
      `lastError` is the code a failing call leaves behind; `resumeThread` and
      `suspendThread` are the raw `DWORD` results for a thread handle. */
  datatype Os = Os(
    getStdHandle: Stream -> int,
    createPipe: Stream -> Pipe,
    duplicateHandle: int -> Option<int>,
    currentDirectory: string,
    createProcess: CreateRequest -> Option<ProcessInformation>,
    lastError: int,
    consoleCP: int,
    consoleOutputCP: int,
    resumeThread: Option<int> -> uint32,
    suspendThread: Option<int> -> uint32,
    encodings: Encodings)

  /** What the runtime's encodings are: `Encoding.GetEncoding(0).CodePage`, the encoding
      `Encoding.GetEncoding(cp)` returns, `new OSEncoding(cp)`, and `UTF8Encoding` without
      an identifier. */
  datatype Encodings = Encodings(
    defaultCodePage: int,
    system: int -> CE.Encoding,
    osEncoding: int -> CE.Encoding,
    utf8NoIdentifier: CE.Encoding)

  /** The relevant part of `ProcessStartInfo`. A null working directory is `None`; the
      environment is the dictionary's contents and the order its keys are enumerated in
      (`None` for a null dictionary). */
  datatype StartInfo = StartInfo(
    fileName: string,
    arguments: string,
    redirectStandardInput: bool,
    redirectStandardOutput: bool,
    redirectStandardError: bool,
    createNoWindow: bool,
    environmentVariables: Option<Environment>,
    workingDirectory: Option<string>,
    userName: string)

  /** A `StringDictionary`: its entries (a null value is stored as the empty string,
      which `StringBuilder.Append` treats alike) and the order in which it lists its keys. */
  datatype Environment = Environment(values: map<string, string>, keys: seq<string>)

  /** `keys` lists every key of `values` exactly once. */
  predicate IsEnumeration(values: map<string, string>, keys: seq<string>) {
    && (forall i, j :: 0 <= i < j < |keys| ==> keys[i] != keys[j])
    && (forall k :: k in keys ==> k in values) && (forall k :: k in values ==> k in keys)
  }

  // ---------------------------------------------------------------------------
  // Encoding selection

  const Utf8CodePage := 65001

  /** Which encoding `GetSupportedConsoleEncoding` picks. */
  datatype EncodingChoice = SystemEncoding(codePage: int) | OSEncodingOf(codePage: int) | Utf8NoIdentifier

  /** `GetSupportedConsoleEncoding`: the runtime's own encoding unless the default code
      page is UTF-8 and another one is asked for; then the OS code page, or UTF-8 without
      a byte-order mark when UTF-8 itself is asked for. */
  function GetSupportedConsoleEncoding(defaultCodePage: int, codePage: int): (c: EncodingChoice)
    ensures c.SystemEncoding? <==> defaultCodePage == codePage || defaultCodePage != Utf8CodePage
    ensures c.OSEncodingOf? <==> defaultCodePage == Utf8CodePage && codePage != Utf8CodePage
    ensures c.Utf8NoIdentifier? ==> codePage == Utf8CodePage
    ensures !c.Utf8NoIdentifier? ==> c.codePage == codePage
  {
    if defaultCodePage == codePage || defaultCodePage != Utf8CodePage then SystemEncoding(codePage)
    else if codePage != Utf8CodePage then OSEncodingOf(codePage)
    else Utf8NoIdentifier
  }

  /** The encoding a choice stands for. */
  function EncodingOf(e: Encodings, c: EncodingChoice): CE.Encoding {
    match c
    case SystemEncoding(cp) => e.system(cp)
    case OSEncodingOf(cp) => e.osEncoding(cp)
    case Utf8NoIdentifier => e.utf8NoIdentifier
  }

  /** The runtime's encodings report the code page they were made for. */
  ghost predicate HonestCodePages(e: Encodings) {
    && (forall cp :: e.system(cp).codePage == cp)
    && (forall cp :: e.osEncoding(cp).codePage == cp)
    && e.utf8NoIdentifier.codePage == Utf8CodePage
  }

  /** `GetEncoding`: the chosen encoding, wrapped so that it writes no preamble. */
  function GetEncoding(e: Encodings, codePage: int): (w: CE.ConsoleEncoding)
    ensures w.inner == EncodingOf(e, GetSupportedConsoleEncoding(e.defaultCodePage, codePage))
  {
    CE.ConsoleEncoding(EncodingOf(e, GetSupportedConsoleEncoding(e.defaultCodePage, codePage)))
  }

  /** A stream gets an encoding for the code page it was asked for, and without a
      preamble, whichever branch of the choice is taken. */
  lemma GetEncodingKeepsCodePage(e: Encodings, codePage: int)
    requires HonestCodePages(e)
    ensures GetEncoding(e, codePage).CodePage() == codePage
    ensures GetEncoding(e, codePage).AsEncoding().preamble == []
  {
    var c := GetSupportedConsoleEncoding(e.defaultCodePage, codePage);
    match c
    case SystemEncoding(cp) => assert e.system(cp).codePage == cp;
    case OSEncodingOf(cp) => assert e.osEncoding(cp).codePage == cp;
    case Utf8NoIdentifier =>
  }

  // ---------------------------------------------------------------------------
  // Resume and Suspend

  /** `(int)` of a `uint`: the same 32 bits read as a signed number. */
  function AsInt32(raw: uint32): (r: int)
    ensures -0x8000_0000 <= r < 0x8000_0000
    ensures r % 0x1_0000_0000 == raw
    ensures raw < 0x8000_0000 ==> r == raw
  {
    if raw < 0x8000_0000 then raw else raw - 0x1_0000_0000
  }

  /** What `Resume` and `Suspend` make of the raw result of `ResumeThread` and
      `SuspendThread`: `(DWORD)-1` throws a `Win32Exception` carrying the last error, any
      other value is the thread's previous suspend count. */
  function ThreadCountResult(raw: uint32, lastError: int): (r: Result<int>)
    ensures r.Err? <==> raw == 0xFFFF_FFFF
    ensures r.Err? ==> r.error == Win32(lastError)
    ensures r.Ok? ==> r.value != -1 && r.value % 0x1_0000_0000 == raw
    ensures r.Ok? && raw < 0x8000_0000 ==> r.value == raw
  {
    var retVal := AsInt32(raw);
    if retVal == -1 then Err(Win32(lastError)) else Ok(retVal)
  }

  /** The raw result is recovered from what the call returns: the mapping loses nothing
      but the sentinel. */
  lemma {:induction false} ThreadCountRoundTrip(raw: uint32, lastError: int)
    ensures var r := ThreadCountResult(raw, lastError);
      if r.Ok? then (r.value + 0x1_0000_0000) % 0x1_0000_0000 == raw else raw == 0xFFFF_FFFF
  {
    var r := ThreadCountResult(raw, lastError);
    if r.Ok? {
      assert r.value % 0x1_0000_0000 == raw;
      assert (r.value + 0x1_0000_0000) % 0x1_0000_0000 == r.value % 0x1_0000_0000;
    }
  }

  // ---------------------------------------------------------------------------
  // The environment block

  /** `StringComparer.OrdinalIgnoreCase`, left abstract: `le(a, b)` when `a` sorts no later than `b`. */
  ghost predicate TotalPreorder(le: (string, string) -> bool) {
    && (forall a, b :: le(a, b) || le(b, a))
    && (forall a, b, c :: le(a, b) && le(b, c) ==> le(a, c))
  }

  predicate Sorted(le: (string, string) -> bool, s: seq<string>) {
    forall i, j :: 0 <= i < j < |s| ==> le(s[i], s[j])
  }

  /** `k` inserted before the first key it sorts no later than. */
  function Insert(le: (string, string) -> bool, k: string, s: seq<string>): (r: seq<string>)
    ensures multiset(r) == multiset(s) + multiset{k}
    ensures forall i :: 0 <= i < |r| ==> r[i] == k || r[i] in s
  {
    if |s| == 0 then [k]
    else if le(k, s[0]) then [k] + s
    else assert s == [s[0]] + s[1..]; [s[0]] + Insert(le, k, s[1..])
  }

  /** `Array.Sort(keys, comparer)`, as a sort by insertion. */
  function SortKeys(le: (string, string) -> bool, keys: seq<string>): (r: seq<string>)
    ensures multiset(r) == multiset(keys)
    ensures forall i :: 0 <= i < |r| ==> r[i] in keys
  {
    if |keys| == 0 then []
    else assert keys == [keys[0]] + keys[1..]; Insert(le, keys[0], SortKeys(le, keys[1..]))
  }

  /** In a sorted sequence the first key sorts no later than any other. */
  lemma HeadFirst(le: (string, string) -> bool, s: seq<string>, x: string)
    requires Sorted(le, s) && |s| > 0 && x in s[1..]
    ensures le(s[0], x)
  {
    var j :| 0 <= j < |s[1..]| && s[1..][j] == x;
    assert s[j + 1] == x;
  }

  lemma {:induction false} InsertSorted(le: (string, string) -> bool, k: string, s: seq<string>)
    requires TotalPreorder(le) && Sorted(le, s)
    ensures Sorted(le, Insert(le, k, s))
  {
    if |s| > 0 && !le(k, s[0]) {
      InsertSorted(le, k, s[1..]);
      var r := Insert(le, k, s[1..]);
      forall i | 0 <= i < |r|
        ensures le(s[0], r[i])
      {
        if r[i] != k {
          HeadFirst(le, s, r[i]);
        }
      }
      assert Insert(le, k, s) == [s[0]] + r;
    } else if |s| > 0 {
      forall i, j | 0 <= i < j < |[k] + s|
        ensures le(([k] + s)[i], ([k] + s)[j])
      {
        if i == 0 && j > 1 {
          assert le(k, s[0]) && le(s[0], s[j - 1]);
        }
      }
    }
  }

  /** The keys come out sorted. */
  lemma {:induction false} SortKeysSorted(le: (string, string) -> bool, keys: seq<string>)
    requires TotalPreorder(le)
    ensures Sorted(le, SortKeys(le, keys))
  {
    if |keys| > 0 {
      SortKeysSorted(le, keys[1..]);
      InsertSorted(le, keys[0], SortKeys(le, keys[1..]));
    }
  }

  /** `sd[key]`: the value of `key`, or null (appended as nothing) when it is absent. */
  function Lookup(values: map<string, string>, key: string): (v: string)
    ensures key in values ==> v == values[key]
    ensures key !in values ==> v == ""
  {
    if key in values then values[key] else ""
  }

  /** One record of the block: `key=value` and a terminating NUL. */
  function Record(key: string, value: string): string {
    key + "=" + value + "\0"
  }

  /** The records of `keys` in that order. */
  function Block(values: map<string, string>, keys: seq<string>): string
  {
    if |keys| == 0 then "" else Record(keys[0], Lookup(values, keys[0])) + Block(values, keys[1..])
  }

  /** The block grows one record at a time at its end. */
  lemma {:induction false} BlockSnoc(values: map<string, string>, keys: seq<string>, i: nat)
    requires i < |keys|
    ensures Block(values, keys[..i + 1]) == Block(values, keys[..i]) + Record(keys[i], Lookup(values, keys[i]))
  {
    if i > 0 {
      BlockSnoc(values, keys[1..], i - 1);
      assert keys[1..][..i] == keys[..i + 1][1..];
      assert keys[1..][..i - 1] == keys[..i][1..];
    } else {
      assert keys[..1][1..] == [];
    }
  }

  /** Appending a key, `=`, the value and NUL appends one record. */
  lemma AppendRecord(before: string, key: string, value: string)
    ensures before + key + "=" + value + "\0" == before + Record(key, value)
  {
  }

  /** `GetEnvironmentVariablesBlock`: the records of all entries, keys sorted by the comparer. */
  method GetEnvironmentVariablesBlock(sd: Environment, le: (string, string) -> bool) returns (block: string)
    ensures block == Block(sd.values, SortKeys(le, sd.keys))
  {
    var keys := SortKeys(le, sd.keys);
    var stringBuff := "";
    for i := 0 to |keys|
      invariant stringBuff == Block(sd.values, keys[..i])
    {
      BlockSnoc(sd.values, keys, i);
      var value := Lookup(sd.values, keys[i]);
      AppendRecord(stringBuff, keys[i], value);
      stringBuff := stringBuff + keys[i];
      stringBuff := stringBuff + "=";
      stringBuff := stringBuff + value;
      stringBuff := stringBuff + "\0";
    }
    assert keys[..|keys|] == keys;
    return stringBuff;
  }

  /** The sum of `|key| + |value| + 2` over the keys. */
  function RecordsLength(values: map<string, string>, keys: seq<string>): nat
  {
    if |keys| == 0 then 0 else |keys[0]| + |Lookup(values, keys[0])| + 2 + RecordsLength(values, keys[1..])
  }

  lemma {:induction false} BlockLength(values: map<string, string>, keys: seq<string>)
    ensures |Block(values, keys)| == RecordsLength(values, keys)
  {
    if |keys| > 0 {
      BlockLength(values, keys[1..]);
    }
  }

  /** The index of the first `c` in `s`, or `|s|`. */
  function IndexOf(s: string, c: char): (i: nat)
    ensures i <= |s| && (i < |s| ==> s[i] == c)
    ensures forall j :: 0 <= j < i ==> s[j] != c
  {
    if |s| == 0 then 0 else if s[0] == c then 0 else 1 + IndexOf(s[1..], c)
  }

  /** Reads a block back: the records up to each NUL, each split at its first `=`. */
  function ParseBlock(b: string): seq<(string, string)>
    decreases |b|
  {
    if |b| == 0 then []
    else
      var end := IndexOf(b, '\0');
      var record := b[..end];
      var eq := IndexOf(record, '=');
      var pair := (record[..eq], if eq < |record| then record[eq + 1..] else "");
      [pair] + (if end < |b| then ParseBlock(b[end + 1..]) else [])
  }

  /** The entries of `keys`, in that order. */
  function Entries(values: map<string, string>, keys: seq<string>): seq<(string, string)>
  {
    if |keys| == 0 then [] else [(keys[0], Lookup(values, keys[0]))] + Entries(values, keys[1..])
  }

  /** Keys without `=` or NUL and values without NUL: what the block format can carry. */
  predicate Serialisable(values: map<string, string>, keys: seq<string>) {
    forall i :: 0 <= i < |keys| ==>
      '=' !in keys[i] && '\0' !in keys[i] && '\0' !in Lookup(values, keys[i])
  }

  lemma IndexOfRecord(key: string, value: string, rest: string)
    requires '=' !in key && '\0' !in key && '\0' !in value
    ensures IndexOf(Record(key, value) + rest, '\0') == |key| + |value| + 1
    ensures IndexOf(key + "=" + value, '=') == |key|
  {
    var s := Record(key, value) + rest;
    var n := |key| + |value| + 1;
    assert s[n] == '\0';
    assert forall j :: 0 <= j < n ==> s[j] != '\0' by {
      forall j | 0 <= j < n
        ensures s[j] != '\0'
      {
        if j < |key| {
          assert s[j] == key[j];
        } else if j > |key| {
          assert s[j] == value[j - |key| - 1];
        }
      }
    }
    IndexOfIs(s, '\0', n);
    var t := key + "=" + value;
    assert t[|key|] == '=';
    assert forall j :: 0 <= j < |key| ==> t[j] != '=' by {
      forall j | 0 <= j < |key|
        ensures t[j] != '='
      {
        assert t[j] == key[j];
      }
    }
    IndexOfIs(t, '=', |key|);
  }

  lemma {:induction false} IndexOfIs(s: string, c: char, n: nat)
    requires n < |s| && s[n] == c && forall j :: 0 <= j < n ==> s[j] != c
    ensures IndexOf(s, c) == n
  {
    if n > 0 {
      IndexOfIs(s[1..], c, n - 1);
    }
  }

  /** Reading a block takes its first record off. */
  lemma ParseRecord(key: string, value: string, rest: string)
    requires '=' !in key && '\0' !in key && '\0' !in value
    ensures ParseBlock(Record(key, value) + rest) == [(key, value)] + ParseBlock(rest)
  {
    var b := Record(key, value) + rest;
    var record := key + "=" + value;
    var end := |record|;
    IndexOfRecord(key, value, rest);
    assert b == record + ("\0" + rest);
    assert b[..end] == record;
    assert b[end + 1..] == rest;
    var eq := IndexOf(record, '=');
    assert eq == |key| < |record|;
    assert record[..eq] == key;
    assert record[eq + 1..] == value;
    assert end < |b|;
  }

  /** The block is read back into the entries it was made from, in the order of the keys. */
  lemma {:induction false} ParseBlockOfBlock(values: map<string, string>, keys: seq<string>)
    requires Serialisable(values, keys)
    ensures ParseBlock(Block(values, keys)) == Entries(values, keys)
  {
    if |keys| > 0 {
      ParseRecord(keys[0], Lookup(values, keys[0]), Block(values, keys[1..]));
      ParseBlockOfBlock(values, keys[1..]);
    }
  }

  /** Entry `i` is the `i`-th key and its value. */
  lemma {:induction false} EntriesAt(values: map<string, string>, keys: seq<string>)
    ensures |Entries(values, keys)| == |keys|
    ensures forall i :: 0 <= i < |keys| ==> Entries(values, keys)[i] == (keys[i], Lookup(values, keys[i]))
  {
    if |keys| > 0 {
      EntriesAt(values, keys[1..]);
    }
  }

  /** Keys without `=` or NUL and values without NUL, in the whole dictionary. */
  predicate SerialisableMap(values: map<string, string>) {
    forall k :: k in values ==> '=' !in k && '\0' !in k && '\0' !in values[k]
  }

  /** The block `GetEnvironmentVariablesBlock` makes of a whole dictionary holds exactly its
      entries: each one is read back, and nothing else is. */
  lemma BlockHoldsDictionary(le: (string, string) -> bool, values: map<string, string>, keys: seq<string>)
    requires IsEnumeration(values, keys) && SerialisableMap(values)
    ensures forall k :: k in values ==> (k, values[k]) in ParseBlock(Block(values, SortKeys(le, keys)))
    ensures forall e :: e in ParseBlock(Block(values, SortKeys(le, keys))) ==> e.0 in values && e.1 == values[e.0]
  {
    var sorted := SortKeys(le, keys);
    assert Serialisable(values, sorted);
    ParseBlockOfBlock(values, sorted);
    EntriesAt(values, sorted);
    var entries := Entries(values, sorted);
    forall k | k in values
      ensures (k, values[k]) in entries
    {
      assert k in multiset(sorted);
      var i :| 0 <= i < |sorted| && sorted[i] == k;
      assert entries[i] == (k, values[k]);
    }
  }

  // ---------------------------------------------------------------------------
  // CreatePipe

  /** `CreatePipe(out parentHandle, out childHandle, parentInputs)` for stream `s`. The
      child gets the read end when the parent writes into the pipe and the write end
      otherwise; both ends are inheritable and owned. The parent gets a non-inheritable
      duplicate of the other end, or a `Win32Exception` when duplication fails; the child's
      end is already handed out either way. The temporary end is disposed when valid. */
  method CreatePipe(os: Os, s: Stream, parentInputs: bool)
    returns (parentHandle: Result<SafeHandle>, childHandle: SafeHandle, disposed: seq<SafeHandle>)
    ensures var pipe := os.createPipe(s);
      var tmp := if parentInputs then pipe.writeEnd else pipe.readEnd;
      && childHandle == SafeHandle(if parentInputs then pipe.readEnd else pipe.writeEnd, true)
      && parentHandle == (if os.duplicateHandle(tmp).Some? then Ok(SafeHandle(os.duplicateHandle(tmp).value, true))
                          else Err(Win32LastError))
      && disposed == (if IsInvalid(tmp) then [] else [SafeHandle(tmp, true)])
  {
    var hTmp: SafeHandle;
    var pipe := os.createPipe(s);
    if parentInputs {
      childHandle, hTmp := SafeHandle(pipe.readEnd, true), SafeHandle(pipe.writeEnd, true);
    } else {
      hTmp, childHandle := SafeHandle(pipe.readEnd, true), SafeHandle(pipe.writeEnd, true);
    }
    var parentHandlePtr := os.duplicateHandle(hTmp.handle);
    if parentHandlePtr.None? {
      parentHandle := Err(Win32LastError);
    } else {
      parentHandle := Ok(SafeHandle(parentHandlePtr.value, true));
    }
    // finally
    disposed := [];
    if !IsInvalid(hTmp.handle) {
      disposed := disposed + [hTmp];
    }
  }

  // ---------------------------------------------------------------------------
  // StartSuspended

  const StreamOrder: seq<Stream> := [StdInput, StdOutput, StdError]

  predicate Redirects(si: StartInfo, s: Stream) {
    match s
    case StdInput => si.redirectStandardInput
    case StdOutput => si.redirectStandardOutput
    case StdError => si.redirectStandardError
  }

  predicate Redirected(si: StartInfo) {
    si.redirectStandardInput || si.redirectStandardOutput || si.redirectStandardError
  }

  /** The child's side of stream `s` when the stream is not redirected: the parent's own
      standard handle, not owned, so disposing it closes nothing. */
  function Inherited(os: Os, s: Stream): (h: SafeHandle)
    ensures !Closes(h)
  {
    SafeHandle(os.getStdHandle(s), false)
  }

  /** The end of the pipe for stream `s` that the child gets: the read end of the input
      pipe, the write end of the others. */
  function PipeChildEnd(os: Os, s: Stream): SafeHandle {
    var pipe := os.createPipe(s);
    SafeHandle(if s == StdInput then pipe.readEnd else pipe.writeEnd, true)
  }

  /** The end of the pipe for stream `s` that the parent duplicates. */
  function PipeParentEnd(os: Os, s: Stream): int {
    var pipe := os.createPipe(s);
    if s == StdInput then pipe.writeEnd else pipe.readEnd
  }

  /** Whether making the pipe for stream `s` fails. */
  predicate PipeFails(os: Os, s: Stream) {
    os.duplicateHandle(PipeParentEnd(os, s)).None?
  }

  /** The child's side of stream `s`. */
  function ChildEnd(os: Os, si: StartInfo, s: Stream): SafeHandle {
    if Redirects(si, s) then PipeChildEnd(os, s) else Inherited(os, s)
  }

  /** The child's sides of the three streams, in order. */
  function ChildEnds(os: Os, si: StartInfo): seq<SafeHandle> {
    [ChildEnd(os, si, StdInput), ChildEnd(os, si, StdOutput), ChildEnd(os, si, StdError)]
  }

  /** The `i`-th stream is redirected and its pipe fails. */
  predicate FailsAt(os: Os, si: StartInfo, i: nat)
    requires i < 3
  {
    Redirects(si, StreamOrder[i]) && PipeFails(os, StreamOrder[i])
  }

  /** Wires one stream's child side: a new pipe when redirected, the parent's own handle
      otherwise. */
  method Wire(os: Os, si: StartInfo, s: Stream)
    returns (parent: Result<Option<SafeHandle>>, child: SafeHandle, disposed: seq<SafeHandle>)
    ensures child == ChildEnd(os, si, s)
    ensures parent.Err? <==> Redirects(si, s) && PipeFails(os, s)
    ensures parent.Err? ==> parent.error == Win32LastError
    ensures parent.Ok? ==> (parent.value.Some? <==> Redirects(si, s))
    ensures parent.Ok? && Redirects(si, s) ==> parent.value == Some(SafeHandle(os.duplicateHandle(PipeParentEnd(os, s)).value, true))
    ensures !Redirects(si, s) ==> disposed == []
    ensures forall d :: d in disposed ==> Closes(d)
  {
    if Redirects(si, s) {
      var p;
      p, child, disposed := CreatePipe(os, s, s == StdInput);
      parent := if p.Err? then Err(p.error) else Ok(Some(p.value));
    } else {
      child, disposed := Inherited(os, s), [];
      parent := Ok(None);
    }
  }

  /** The redirection block of `StartSuspended` (lines 53-87): the streams are wired in the
      order input, output, error until a pipe fails. It reports the child-side handles
      made so far, the temporary ends disposed, the parent's ends and the startup info. */
  method WireStreams(os: Os, si: StartInfo)
    returns (failure: Option<Error>, children: seq<SafeHandle>, temps: seq<SafeHandle>, parents: seq<Option<SafeHandle>>,
             startupInfo: StartupInfo)
    ensures !Redirected(si) ==> failure.None? && children == [] && temps == [] && startupInfo == StartupInfo(0, 0, 0, 0)
    ensures Redirected(si) ==> 0 < |children| <= 3 && children == ChildEnds(os, si)[..|children|]
    ensures Redirected(si) ==> forall i :: 0 <= i < |children| - 1 ==> !FailsAt(os, si, i)
    ensures failure.Some? <==> Redirected(si) && FailsAt(os, si, |children| - 1)
    ensures failure.Some? ==> failure.value == Win32LastError && startupInfo == StartupInfo(0, 0, 0, 0)
    ensures Redirected(si) && failure.None? ==>
      && |children| == 3
      && startupInfo == StartupInfo(StartfUseStdHandles, children[0].handle, children[1].handle, children[2].handle)
    ensures failure.None? ==> |parents| == 3 && forall i :: 0 <= i < 3 ==> (parents[i].Some? <==> Redirects(si, StreamOrder[i]))
    ensures forall d :: d in temps ==> Closes(d)
  {
    children, temps, parents, startupInfo := [], [], [None, None, None], StartupInfo(0, 0, 0, 0);
    failure := None;
    if Redirected(si) {
      var i := 0;
      while i < 3 && failure.None?
        invariant 0 <= i <= 3 && |children| == i && children == ChildEnds(os, si)[..i]
        invariant failure.None? ==> forall j :: 0 <= j < i ==> !FailsAt(os, si, j)
        invariant failure.Some? ==> 0 < i && failure.value == Win32LastError && FailsAt(os, si, i - 1)
                                    && forall j :: 0 <= j < i - 1 ==> !FailsAt(os, si, j)
        invariant |parents| == 3 && forall j :: 0 <= j < i && failure.None? ==> (parents[j].Some? <==> Redirects(si, StreamOrder[j]))
        invariant forall j :: i <= j < 3 ==> parents[j] == None
        invariant forall d :: d in temps ==> Closes(d)
      {
        var parent, child, disposed := Wire(os, si, StreamOrder[i]);
        assert ChildEnds(os, si)[i] == ChildEnd(os, si, StreamOrder[i]);
        assert ChildEnds(os, si)[..i + 1] == ChildEnds(os, si)[..i] + [child];
        children := children + [child];
        temps := temps + disposed;
        if parent.Err? {
          failure := Some(parent.error);
        } else {
          parents := parents[i := parent.value];
        }
        i := i + 1;
      }
      if failure.None? {
        startupInfo := StartupInfo(StartfUseStdHandles, children[0].handle, children[1].handle, children[2].handle);
      }
      if !(forall j :: 0 <= j < 3 ==> (parents[j].Some? <==> Redirects(si, StreamOrder[j]))) {
        assert failure.Some?;
      }
    }
  }

  /** The creation flags: always suspended, no window when asked, and a Unicode block
      when there is an environment. */
  function CreationFlags(createNoWindow: bool, hasEnvironment: bool): (f: bv32)
    ensures f & CreateSuspended != 0
    ensures (f & CreateNoWindow != 0) <==> createNoWindow
    ensures (f & CreateUnicodeEnvironment != 0) <==> hasEnvironment
    ensures f & !(CreateSuspended | CreateNoWindow | CreateUnicodeEnvironment) == 0
  {
    (if createNoWindow then CreateNoWindow else 0)
    | (if hasEnvironment then CreateUnicodeEnvironment else 0)
    | CreateSuspended
  }

  /** The working directory passed on: the empty string stands for the current directory. */
  function WorkingDirectory(os: Os, wd: Option<string>): (r: Option<string>)
    ensures wd == Some("") ==> r == Some(os.currentDirectory)
    ensures wd != Some("") ==> r == wd
  {
    if wd == Some("") then Some(os.currentDirectory) else wd
  }

  /** Lines 89-141 of `StartSuspended`: the creation call, from the flags, the environment
      block and the working directory. */
  method Create(os: Os, si: StartInfo, startupInfo: StartupInfo, le: (string, string) -> bool)
    returns (request: CreateRequest, processInfo: Option<ProcessInformation>)
    ensures request.asUser == (|si.userName| != 0)
    ensures request.fileName == si.fileName && request.arguments == si.arguments
    ensures request.creationFlags == CreationFlags(si.createNoWindow, si.environmentVariables.Some?)
    ensures request.workingDirectory == WorkingDirectory(os, si.workingDirectory)
    ensures request.environment.Some? <==> si.environmentVariables.Some?
    ensures si.environmentVariables.Some? ==>
      var env := si.environmentVariables.value;
      request.environment.value == Block(env.values, SortKeys(le, env.keys))
    ensures request.startupInfo == startupInfo
    ensures processInfo == os.createProcess(request)
  {
    var creationFlags: bv32 := 0;
    if si.createNoWindow {
      creationFlags := creationFlags | CreateNoWindow;
    }
    var environmentBlock: Option<string> := None;
    if si.environmentVariables.Some? {
      creationFlags := creationFlags | CreateUnicodeEnvironment;
      var block := GetEnvironmentVariablesBlock(si.environmentVariables.value, le);
      environmentBlock := Some(block);
    }
    creationFlags := creationFlags | CreateSuspended;
    var workingDirectory := si.workingDirectory;
    if workingDirectory == Some("") {
      workingDirectory := Some(os.currentDirectory);
    }
    request := CreateRequest(|si.userName| != 0, si.fileName, si.arguments, creationFlags,
                             environmentBlock, workingDirectory, startupInfo);
    processInfo := os.createProcess(request);
  }

  /** The encodings of the redirected streams: the console's input code page for the
      child's input, its output code page for the other two. */
  function StreamEncodings(os: Os, si: StartInfo): seq<(Stream, CE.ConsoleEncoding)> {
    (if si.redirectStandardInput then [(StdInput, GetEncoding(os.encodings, os.consoleCP))] else [])
    + (if si.redirectStandardOutput then [(StdOutput, GetEncoding(os.encodings, os.consoleOutputCP))] else [])
    + (if si.redirectStandardError then [(StdError, GetEncoding(os.encodings, os.consoleOutputCP))] else [])
  }

  /** The side effects of one `StartSuspended`: the creation call it made, if it got that
      far; the child-side handles it disposed, in the order input, output, error; the
      temporary pipe ends `CreatePipe` disposed; and the encoding of each redirected
      stream. */
  datatype Launch = Launch(
    request: Option<CreateRequest>,
    childDisposed: seq<SafeHandle>,
    tempDisposed: seq<SafeHandle>,
    encodings: seq<(Stream, CE.ConsoleEncoding)>)

  class SuspendableProcess {
    /** `processHandle`, `threadHandle` and `processId`; `None` for null. */
    var processHandle: Option<int>
    var threadHandle: Option<int>
    var processId: Option<int>

    constructor ()
      ensures processHandle == None && threadHandle == None && processId == None
    {
      processHandle, threadHandle, processId := None, None, None;
    }

    /** `Resume`: the previous suspend count of the thread, or a `Win32Exception`. */
    function Resume(os: Os): (r: Result<int>)
      reads this
      ensures r.Err? <==> os.resumeThread(threadHandle) == 0xFFFF_FFFF
      ensures r.Err? ==> r.error == Win32(os.lastError)
      ensures r.Ok? ==> r.value % 0x1_0000_0000 == os.resumeThread(threadHandle)
    {
      ThreadCountResult(os.resumeThread(threadHandle), os.lastError)
    }

    /** `Suspend`: the previous suspend count of the thread, or a `Win32Exception`. */
    function Suspend(os: Os): (r: Result<int>)
      reads this
      ensures r.Err? <==> os.suspendThread(threadHandle) == 0xFFFF_FFFF
      ensures r.Err? ==> r.error == Win32(os.lastError)
      ensures r.Ok? ==> r.value % 0x1_0000_0000 == os.suspendThread(threadHandle)
    {
      ThreadCountResult(os.suspendThread(threadHandle), os.lastError)
    }

    /** `StartSuspended`. The child's handles made so far are disposed on every path; a
        failed pipe throws before the creation call and a failed creation throws with its
        error code; the process and thread handles are stored only when valid, and the
        call reports whether a process handle is held. */
    method StartSuspended(os: Os, si: StartInfo, le: (string, string) -> bool)
      returns (r: Result<bool>, launch: Launch)
      modifies this
      ensures !Redirected(si) ==> launch.childDisposed == []
      ensures Redirected(si) ==> 0 < |launch.childDisposed| <= 3 && launch.childDisposed == ChildEnds(os, si)[..|launch.childDisposed|]
      ensures Redirected(si) && launch.request.Some? ==> launch.childDisposed == ChildEnds(os, si)
      ensures forall d :: d in launch.tempDisposed ==> Closes(d)
      ensures launch.request.None? <==> r == Err(Win32LastError)
      ensures launch.request.None? ==> Redirected(si) && FailsAt(os, si, |launch.childDisposed| - 1)
      ensures launch.request.Some? ==>
        var q := launch.request.value;
        && q.startupInfo.flags == (if Redirected(si) then StartfUseStdHandles else 0)
        && (Redirected(si) ==>
              && q.startupInfo.stdInput == ChildEnd(os, si, StdInput).handle
              && q.startupInfo.stdOutput == ChildEnd(os, si, StdOutput).handle
              && q.startupInfo.stdError == ChildEnd(os, si, StdError).handle)
        && (!Redirected(si) ==> q.startupInfo == StartupInfo(0, 0, 0, 0))
        && q.creationFlags == CreationFlags(si.createNoWindow, si.environmentVariables.Some?)
        && q.workingDirectory == WorkingDirectory(os, si.workingDirectory)
        && (q.environment.Some? <==> si.environmentVariables.Some?)
        && (si.environmentVariables.Some? ==>
              var env := si.environmentVariables.value;
              q.environment.value == Block(env.values, SortKeys(le, env.keys)))
      ensures launch.request.Some? && os.createProcess(launch.request.value).None? ==>
        r == Err(Win32(os.lastError)) && unchanged(this)
      ensures launch.request.Some? && os.createProcess(launch.request.value).Some? ==>
        var info := os.createProcess(launch.request.value).value;
        && processHandle == (if IsInvalid(info.hProcess) then old(processHandle) else Some(info.hProcess))
        && threadHandle == (if IsInvalid(info.hThread) then old(threadHandle) else Some(info.hThread))
        && (processHandle.None? ==> r == Ok(false) && processId == old(processId))
        && (processHandle.Some? ==> r == Ok(true) && processId == Some(info.processId))
        && launch.encodings == StreamEncodings(os, si)
      ensures r.Err? ==> unchanged(this) && launch.encodings == []
    {
      var failure, children, temps, parents, startupInfo := WireStreams(os, si);
      var request: Option<CreateRequest> := None;
      if failure.None? {
        var q, processInfo := Create(os, si, startupInfo, le);
        request := Some(q);
        if processInfo.None? {
          failure := Some(Win32(os.lastError));
        } else {
          if !IsInvalid(processInfo.value.hProcess) {
            processHandle := Some(processInfo.value.hProcess);
          }
          if !IsInvalid(processInfo.value.hThread) {
            threadHandle := Some(processInfo.value.hThread);
          }
        }
      }
      // finally: the child's ends made so far are disposed
      launch := Launch(request, children, temps, []);
      if failure.Some? {
        return Err(failure.value), launch;
      }
      // the parents' ends become the streams of the process (not modelled)
      launch := launch.(encodings := StreamEncodings(os, si));
      if processHandle.None? {
        return Ok(false), launch;
      }
      processId := Some(os.createProcess(request.value).value.processId);
      return Ok(true), launch;
    }
  }
}
