/** Fetching a file from the remote host in chunks: the server side `GetFileContent`, which
    reports the offset of the next chunk (0 when the file is exhausted, negative on failure),
    and the client side `file_call`, which loops until it sees 0. The offset is a 64-bit
    integer on the server and travels as a 32-bit one. */
module Transfer {
  import opened Common

  newtype byte = x: int | 0 <= x < 256

  type Bytes = seq<byte>

  const TWO_31: int := 0x8000_0000
  const TWO_32: int := 0x1_0000_0000
  const TWO_63: int := 0x8000_0000_0000_0000

  /** The chunk size `file_call` asks for. */
  const MAX_SIZE_DATA: nat := 1048576

  const TMP_PATH: string := "/tmp/"

  datatype Response = Response(content: Bytes, code: int)

  /** Conversion of a 64-bit value to a 32-bit two's complement int. */
  function Narrow(x: int): (r: int)
    ensures -0x8000_0000 <= r <= 0x7FFF_FFFF
    ensures (r - x) % 0x1_0000_0000 == 0
  {
    (x + TWO_31) % TWO_32 - TWO_31
  }

  /** `GetFileContent` on a file of the server (`None`: it cannot be opened), together with the
      new value of the offset it takes by reference. `maxSize` 0 means no limit. */
  function GetFileContent(file: Option<Bytes>, offset: int, maxSize: nat): (r: Response)
    requires file.Some? ==> 0 <= offset <= |file.value| < TWO_63
    ensures file.None? ==> r == Response([], FAILED)
    ensures file.Some? ==> r.content <= file.value[offset..]
    ensures file.Some? && maxSize > 0 ==> |r.content| <= maxSize
    ensures file.Some? ==> (r.code == SUCCESS <==> offset + |r.content| == |file.value|)
    ensures file.Some? && r.code != SUCCESS ==> r.code == offset + |r.content| == offset + maxSize
  {
    if file.None? then Response([], FAILED) else
    var rest := |file.value| - offset;
    var read := if maxSize == 0 then rest else if maxSize > rest then rest else maxSize;
    Response(file.value[offset..offset + read],
             if read + offset == |file.value| then SUCCESS else read + offset)
  }

  /** The handler of the `file_content` call: the reply carries the offset narrowed to int. */
  function Serve(file: Option<Bytes>, offset: int, maxSize: nat): Response
    requires file.Some? ==> 0 <= offset <= |file.value| < TWO_63
  {
    var r := GetFileContent(file, offset, maxSize);
    r.(code := Narrow(r.code))
  }

  lemma NarrowOfCongruent(x: int, y: int)
    requires (x - y) % TWO_32 == 0
    ensures Narrow(x) == Narrow(y)
  {
    var q := (x - y) / TWO_32;
    assert x + TWO_31 == y + TWO_31 + TWO_32 * q;
    ModuloShift(y + TWO_31, q);
  }

  lemma ModuloShift(x: int, q: int)
    ensures (x + TWO_32 * q) % TWO_32 == x % TWO_32
  {
  }

  /** How far a full chunk moves the offset the client sees: its size, reduced to an int. */
  function Stride(chunk: nat): int {
    Narrow(chunk)
  }

  lemma StrideOf(chunk: nat)
    ensures chunk < TWO_31 ==> Stride(chunk) == chunk
    ensures TWO_31 <= chunk < TWO_32 ==> Stride(chunk) < 0
    ensures chunk >= TWO_32 ==> Stride(chunk) < chunk
  {
  }

  /** The least k with k * n >= x. */
  function Rounds(x: nat, n: nat): (k: nat)
    requires x > 0 && n > 0
    ensures k >= 1 && (k - 1) * n < x <= k * n
  {
    var k := (x - 1) / n;
    assert x - 1 == k * n + (x - 1) % n;
    assert (k + 1) * n == k * n + n;
    k + 1
  }

  /** The number of calls a transfer makes when every call succeeds and every offset fits. */
  function Calls(size: nat, chunk: nat): (k: nat)
    requires chunk >= 1
    ensures k >= 1
  {
    if size <= chunk || Stride(chunk) <= 0 then 1 else 1 + Rounds(size - chunk, Stride(chunk))
  }

  /** For a chunk that fits an int this is max(1, ceil(size / chunk)). */
  lemma CallsOfChunk(size: nat, chunk: nat)
    requires 1 <= chunk < TWO_31
    ensures var n := Calls(size, chunk);
            (n - 1) * chunk <= size && (size > 0 ==> (n - 1) * chunk < size <= n * chunk)
  {
    StrideOf(chunk);
    var n := Calls(size, chunk);
    if size > chunk {
      assert n * chunk == (n - 1) * chunk + chunk && (n - 1) * chunk == (n - 2) * chunk + chunk;
    }
  }

  /** The server answers the last call of a transfer with 0: because the file ends there, because a
      full chunk looks like no progress at all, or with an offset that fits an int. */
  predicate Completes(size: nat, chunk: nat)
    requires chunk >= 1
  {
    || size <= chunk || Stride(chunk) == 0
    || (Stride(chunk) > 0 && (Calls(size, chunk) - 1) * Stride(chunk) < TWO_31)
  }

  /** `offset` is what call number `i` asks for, and it fits an int. */
  ghost predicate AtCall(size: nat, chunk: nat, i: nat, offset: nat)
    requires chunk >= 1
  {
    i < Calls(size, chunk) && offset == i * Stride(chunk) && offset < TWO_31 && offset <= size
  }

  /** Every call but the first starts with a positive stride, and leaves more than a chunk only before
      the last one. */
  lemma CallPlace(size: nat, chunk: nat, i: nat, offset: nat)
    requires chunk >= 1 && AtCall(size, chunk, i, offset)
    ensures i > 0 ==> Stride(chunk) > 0 && size > chunk
    ensures size > chunk && Stride(chunk) > 0 ==>
              Stride(chunk) <= chunk && (i + 1 == Calls(size, chunk) <==> size - offset <= chunk)
  {
    StrideOf(chunk);
    var n := Stride(chunk);
    if size > chunk && n > 0 {
      var k := Rounds(size - chunk, n);
      if i < k {
        TimesBelow(n, i, k - 1);
      } else {
        TimesBelow(n, k, i);
      }
    }
  }

  lemma TimesBelow(n: nat, i: nat, j: nat)
    requires i <= j
    ensures 0 <= i * n <= j * n
  {
    assert j * n == i * n + (j - i) * n;
    assert (j - i) * n >= 0;
  }

  /** The offset that follows a full chunk, as the client sees it. */
  lemma NextOffset(chunk: nat, offset: nat)
    requires offset < TWO_31
    ensures offset == 0 ==> Narrow(offset + chunk) == Stride(chunk)
    ensures Stride(chunk) > 0 ==>
              var next := offset + Stride(chunk);
              if next < TWO_31 then Narrow(offset + chunk) == next else Narrow(offset + chunk) < 0
  {
    assert ((offset + chunk) - (offset + Stride(chunk))) % TWO_32 == 0;
    NarrowOfCongruent(offset + chunk, offset + Stride(chunk));
  }

  /** After a full chunk there is a next call, whose offset fits or which shows that not all do. */
  lemma NextCall(size: nat, chunk: nat, i: nat, offset: nat)
    requires chunk >= 1 && AtCall(size, chunk, i, offset) && size - offset > chunk && Stride(chunk) > 0
    ensures i + 1 < Calls(size, chunk)
    ensures var next := offset + Stride(chunk);
            if next < TWO_31 then AtCall(size, chunk, i + 1, next) else !Completes(size, chunk)
  {
    var n := Stride(chunk);
    CallPlace(size, chunk, i, offset);
    assert (i + 1) * n == offset + n;
    TimesBelow(n, i + 1, Calls(size, chunk) - 1);
  }

  /** The reply to call number `i`: the rest of the file and 0 when that fits the chunk; otherwise one
      full chunk and, when the stride is not positive, the stride, else the next offset or, when that
      does not fit, a negative code. */
  lemma ServeCall(file: Bytes, chunk: nat, i: nat, offset: nat)
    requires |file| < TWO_63 && chunk >= 1 && AtCall(|file|, chunk, i, offset)
    ensures var r, n := Serve(Some(file), offset, chunk), Stride(chunk);
            if |file| - offset <= chunk then
              r == Response(file[offset..], SUCCESS)
            else if n <= 0 then
              r == Response(file[..chunk], n) && i == 0 && offset == 0
            else
              && r.content == file[offset..offset + chunk]
              && if offset + n < TWO_31 then r.code == offset + n else r.code < 0
  {
    CallPlace(|file|, chunk, i, offset);
    NextOffset(chunk, offset);
    assert i == 0 ==> i * Stride(chunk) == 0;
  }

  /** When the reply is the last one. */
  lemma LastCall(size: nat, chunk: nat, i: nat, offset: nat)
    requires chunk >= 1 && AtCall(size, chunk, i, offset)
    requires size - offset <= chunk || Stride(chunk) <= 0
    ensures i + 1 == Calls(size, chunk)
    ensures size - offset <= chunk || Stride(chunk) == 0 ==> Completes(size, chunk)
    ensures size - offset > chunk && Stride(chunk) < 0 ==> !Completes(size, chunk)
  {
    CallPlace(size, chunk, i, offset);
    assert i == 0 ==> i * Stride(chunk) == 0;
  }

  /** The file is long enough for `i` full chunks, one stride after the other. */
  predicate FullChunks(file: Bytes, chunk: nat, i: nat) {
    i > 0 ==> Stride(chunk) > 0 && (i - 1) * Stride(chunk) + chunk <= |file|
  }

  lemma FewerChunks(file: Bytes, chunk: nat, i: nat)
    requires i > 0 && FullChunks(file, chunk, i)
    ensures FullChunks(file, chunk, i - 1) && 0 <= (i - 1) * Stride(chunk)
  {
    TimesBelow(Stride(chunk), 0, i - 1);
    if i > 1 {
      TimesBelow(Stride(chunk), i - 2, i - 1);
    }
  }

  /** What the client has received after `i` full chunks. */
  function Received(file: Bytes, chunk: nat, i: nat): Bytes
    requires FullChunks(file, chunk, i)
  {
    if i == 0 then [] else
    FewerChunks(file, chunk, i);
    var offset := (i - 1) * Stride(chunk);
    Received(file, chunk, i - 1) + file[offset..offset + chunk]
  }

  lemma AllFit(file: Bytes, chunk: nat)
    requires chunk >= 1 && Stride(chunk) >= 0
    ensures var k := Calls(|file|, chunk) - 1;
            0 <= k * Stride(chunk) <= |file| && FullChunks(file, chunk, k)
  {
    StrideOf(chunk);
    var k := Calls(|file|, chunk) - 1;
    if k > 0 {
      TimesBelow(Stride(chunk), 0, k);
      assert k * Stride(chunk) == (k - 1) * Stride(chunk) + Stride(chunk);
    }
  }

  /** The file a completed transfer leaves: the full chunks and the content of the last reply. */
  function Outcome(file: Bytes, chunk: nat): Bytes
    requires |file| < TWO_63 && chunk >= 1 && Completes(|file|, chunk)
  {
    if |file| <= chunk then file else
    AllFit(file, chunk);
    var k := Calls(|file|, chunk) - 1;
    Received(file, chunk, k) + Serve(Some(file), k * Stride(chunk), chunk).content
  }

  lemma {:induction false} ReceivedIsPrefix(file: Bytes, chunk: nat, i: nat)
    requires 1 <= chunk < TWO_31 && Stride(chunk) == chunk && FullChunks(file, chunk, i)
    ensures 0 <= i * chunk <= |file| && Received(file, chunk, i) == file[..i * chunk]
  {
    if i > 0 {
      var offset := (i - 1) * chunk;
      FewerChunks(file, chunk, i);
      ReceivedIsPrefix(file, chunk, i - 1);
      assert i * chunk == offset + chunk;
      assert file[..offset] + file[offset..offset + chunk] == file[..offset + chunk];
    }
  }

  lemma {:induction false} ReceivedLength(file: Bytes, chunk: nat, i: nat)
    requires FullChunks(file, chunk, i)
    ensures |Received(file, chunk, i)| == i * chunk
  {
    if i > 0 {
      FewerChunks(file, chunk, i);
      ReceivedLength(file, chunk, i - 1);
      assert i * chunk == (i - 1) * chunk + chunk;
    }
  }

  /** A completed transfer has the right content exactly when the file fits one chunk or the chunk an
      int. A larger chunk brings too little, when the stride is 0, or too much, because the chunks
      overlap. */
  lemma OutcomeIsFileIff(file: Bytes, chunk: nat)
    requires |file| < TWO_63 && chunk >= 1 && Completes(|file|, chunk)
    ensures Outcome(file, chunk) == file <==> |file| <= chunk || chunk < TWO_31
  {
    StrideOf(chunk);
    if |file| > chunk {
      if Stride(chunk) == 0 {
        assert Calls(|file|, chunk) - 1 == 0;
        assert |Outcome(file, chunk)| == chunk;
      } else if chunk < TWO_31 {
        SmallChunkOutcome(file, chunk);
      } else {
        WideChunkOutcome(file, chunk);
      }
    }
  }

  lemma SmallChunkOutcome(file: Bytes, chunk: nat)
    requires |file| < TWO_63 && 1 <= chunk < |file| && chunk < TWO_31 && Completes(|file|, chunk)
    ensures Outcome(file, chunk) == file
  {
    StrideOf(chunk);
    AllFit(file, chunk);
    LastContent(file, chunk);
    var k := Calls(|file|, chunk) - 1;
    ReceivedIsPrefix(file, chunk, k);
    assert file[..k * chunk] + file[k * chunk..] == file;
  }

  lemma WideChunkOutcome(file: Bytes, chunk: nat)
    requires |file| < TWO_63 && TWO_32 <= chunk < |file| && Completes(|file|, chunk) && Stride(chunk) > 0
    ensures |Outcome(file, chunk)| > |file|
  {
    StrideOf(chunk);
    AllFit(file, chunk);
    LastContent(file, chunk);
    var k, n := Calls(|file|, chunk) - 1, Stride(chunk);
    ReceivedLength(file, chunk, k);
    MoreThan(k, n, chunk);
    assert |Outcome(file, chunk)| == |Received(file, chunk, k)| + |file[k * n..]|;
  }

  lemma MoreThan(k: nat, n: nat, m: nat)
    requires k >= 1 && n < m
    ensures k * n < k * m
  {
    assert k * m == k * n + k * (m - n);
    TimesBelow(m - n, 1, k);
  }

  lemma LastContent(file: Bytes, chunk: nat)
    requires |file| < TWO_63 && 1 <= chunk < |file| && Completes(|file|, chunk) && Stride(chunk) > 0
    ensures var k := Calls(|file|, chunk) - 1;
            && AtCall(|file|, chunk, k, k * Stride(chunk))
            && Serve(Some(file), k * Stride(chunk), chunk) == Response(file[k * Stride(chunk)..], SUCCESS)
  {
    AllFit(file, chunk);
    var k := Calls(|file|, chunk) - 1;
    TimesBelow(Stride(chunk), 0, k);
    CallPlace(|file|, chunk, k, k * Stride(chunk));
    ServeCall(file, chunk, k, k * Stride(chunk));
  }

  /** Spelled out: the client reports success and has a wrong file exactly when the file is larger than
      a chunk of at least 2^32 bytes and either a chunk looks like no progress, or the offsets it
      sees, the multiples of the stride, reach the last chunk below 2^31. */
  lemma WrongSuccessIff(file: Bytes, chunk: nat)
    requires |file| < TWO_63 && chunk >= 1
    ensures Completes(|file|, chunk) && Outcome(file, chunk) != file
            <==> && |file| > chunk >= TWO_32
                 && (Stride(chunk) == 0
                     || (Stride(chunk) > 0
                         && exists k: nat :: |file| - chunk <= k * Stride(chunk) < TWO_31))
  {
    StrideOf(chunk);
    var n := Stride(chunk);
    if Completes(|file|, chunk) {
      OutcomeIsFileIff(file, chunk);
    }
    if |file| > chunk && n > 0 {
      var least := Rounds(|file| - chunk, n);
      if k: nat :| |file| - chunk <= k * n < TWO_31 {
        if k < least {
          TimesBelow(n, k, least - 1);
        }
        TimesBelow(n, least, k);
      }
      assert Completes(|file|, chunk) ==> |file| - chunk <= least * n < TWO_31;
    }
  }

  /** The simplest such input: a chunk of 2^32 bytes and a file that is larger. */
  lemma WideChunkLooksFinished(file: Bytes)
    requires TWO_32 < |file| < TWO_63
    ensures Stride(TWO_32) == 0 && Completes(|file|, TWO_32) && Outcome(file, TWO_32) != file
  {
    WrongSuccessIff(file, TWO_32);
  }

  /** With the chunk the client uses, a transfer completes exactly for files of at most 2^31 bytes, and
      then it is right. */
  lemma DefaultChunkLimit(size: nat)
    ensures Stride(MAX_SIZE_DATA) == MAX_SIZE_DATA
    ensures Completes(size, 1048576) <==> size <= 0x8000_0000
  {
    StrideOf(MAX_SIZE_DATA);
    var n := Calls(size, MAX_SIZE_DATA);
    assert TWO_31 == 2048 * MAX_SIZE_DATA;
    CallsOfChunk(size, MAX_SIZE_DATA);
    if n <= 2048 {
      TimesBelow(MAX_SIZE_DATA, n, 2048);
      TimesBelow(MAX_SIZE_DATA, n - 1, 2047);
    } else {
      TimesBelow(MAX_SIZE_DATA, 2048, n - 1);
    }
  }

  /** One read without a limit returns the whole file. */
  lemma OneShotRead(file: Bytes)
    requires |file| < TWO_63
    ensures GetFileContent(Some(file), 0, 0) == Response(file, SUCCESS)
  {
  }

  /** The client's file system. */
  class Disk {
    var files: map<string, Bytes>

    constructor ()
      ensures files == map[]
    {
      files := map[];
    }

    /** `fwrite` to the open file. */
    method Append(path: string, content: Bytes)
      requires path in files
      modifies this
      ensures files == old(files)[path := old(files[path]) + content]
    {
      files := files[path := files[path] + content];
    }
  }

  /** The first `n` calls are answered by the server. */
  ghost predicate NoFault(fault: nat -> int, n: nat) {
    forall i :: 0 <= i < n ==> fault(i) == 0
  }

  /** A transfer that was begun comes to its end. */
  ghost predicate Succeeds(file: Bytes, chunk: nat, fault: nat -> int)
    requires chunk >= 1
  {
    NoFault(fault, Calls(|file|, chunk)) && Completes(|file|, chunk)
  }

  /** What has to go right for a transfer to succeed: `fault(i)` is the error code with which the
      connection answers call number `i`, or 0 when the call reaches the server and back. */
  ghost predicate AllGoesWell(connected: bool, file: Option<Bytes>, chunk: nat, fault: nat -> int, canCreate: bool)
    requires chunk >= 1
  {
    connected && file.Some? && canCreate && Succeeds(file.value, chunk, fault)
  }

  /** The code of the first reply, which the client hands on when it is negative. */
  function FirstCode(file: Option<Bytes>, chunk: nat, fault: int): int {
    if fault < 0 then fault
    else if file.None? then FAILED
    else if |file.value| <= chunk then SUCCESS
    else Stride(chunk)
  }

  method Call(file: Option<Bytes>, offset: int, chunk: nat, fault: int) returns (r: Response)
    requires file.Some? ==> 0 <= offset <= |file.value| < TWO_63
    requires fault <= 0
    ensures fault < 0 ==> r == Response([], fault)
    ensures fault == 0 ==> r == Serve(file, offset, chunk)
  {
    if fault < 0 {
      r := Response([], fault);
    } else {
      r := Serve(file, offset, chunk);
    }
  }

  lemma FirstCall(file: Bytes, chunk: nat)
    requires |file| < TWO_63 && chunk >= 1
    ensures AtCall(|file|, chunk, 0, 0)
    ensures Serve(Some(file), 0, chunk).code == FirstCode(Some(file), chunk, 0)
    ensures FirstCode(Some(file), chunk, 0) < 0 ==> !Completes(|file|, chunk)
  {
    assert 0 * Stride(chunk) == 0;
    ServeCall(file, chunk, 0, 0);
    NextOffset(chunk, 0);
  }

  /** `file_call`, for every chunk size. It succeeds exactly when everything it depends on goes well,
      and then the temporary file is the outcome of the transfer, obtained in the expected number of
      calls; for every chunk that fits an int the outcome is one unlimited read. Otherwise the code
      is negative and no file of this transfer is left: the temporary file is gone, or untouched
      when the first call already failed. */
  method FileCall(disk: Disk, name: string, file: Option<Bytes>, chunk: nat,
                  connected: bool, fault: nat -> int, canCreate: bool)
    returns (path: string, code: int, calls: nat)
    requires chunk >= 1
    requires file.Some? ==> |file.value| < TWO_63
    requires forall i :: fault(i) <= 0
    modifies disk
    ensures code == SUCCESS <==> AllGoesWell(connected, file, chunk, fault, canCreate)
    ensures code == SUCCESS ==>
              && path == TMP_PATH + name
              && disk.files == old(disk.files)[path := Outcome(file.value, chunk)]
              && calls == Calls(|file.value|, chunk)
    ensures code == SUCCESS && chunk < TWO_31 ==>
              disk.files[path] == file.value == GetFileContent(file, 0, 0).content
    ensures code != SUCCESS ==>
              && code < 0
              && code == (if !connected then NO_CONNECTION
                          else if FirstCode(file, chunk, fault(0)) < 0 then FirstCode(file, chunk, fault(0))
                          else FAILED)
              && disk.files == if !connected || FirstCode(file, chunk, fault(0)) < 0 then old(disk.files)
                               else old(disk.files) - {TMP_PATH + name}
  {
    path, calls := "", 0;
    if !connected {
      return path, NO_CONNECTION, calls;
    }
    if file.Some? {
      FirstCall(file.value, chunk);
    }
    var response := Call(file, 0, chunk, fault(0));
    calls := 1;
    if response.code < 0 {
      return path, response.code, calls;
    }
    path, code, calls := Store(disk, name, file.value, chunk, fault, canCreate, response);
    if code == SUCCESS {
      OneShotRead(file.value);
      OutcomeIsFileIff(file.value, chunk);
    }
  }

  /** `file_call` after a first reply that is no failure. */
  method Store(disk: Disk, name: string, file: Bytes, chunk: nat, fault: nat -> int, canCreate: bool, first: Response)
    returns (path: string, code: int, calls: nat)
    requires chunk >= 1 && |file| < TWO_63
    requires forall i :: fault(i) <= 0
    requires fault(0) == 0 && first == Serve(Some(file), 0, chunk) && first.code >= 0
    modifies disk
    ensures code == SUCCESS || code == FAILED
    ensures code == SUCCESS <==> AllGoesWell(true, Some(file), chunk, fault, canCreate)
    ensures code == SUCCESS ==>
              && path == TMP_PATH + name && calls == Calls(|file|, chunk)
              && disk.files == old(disk.files)[path := Outcome(file, chunk)]
    ensures code != SUCCESS ==> disk.files == old(disk.files) - {TMP_PATH + name}
  {
    path, calls := "", 1;
    var tmp := TMP_PATH + name;
    disk.files := disk.files - {tmp};
    if !canCreate {
      return path, FAILED, calls;
    }
    disk.files := disk.files[tmp := []];
    FirstCall(file, chunk);
    code, calls := ReceiveRest(disk, tmp, file, chunk, fault, first);
    if code == SUCCESS {
      path := tmp;
      assert disk.files == old(disk.files)[tmp := Outcome(file, chunk)];
    } else {
      assert disk.files == old(disk.files) - {tmp};
    }
  }

  /** Where the loop of `file_call` is: the reply of call number `i` has come, and the file holds the
      full chunks of the calls before. */
  ghost predicate Receiving(file: Bytes, chunk: nat, i: nat, offset: nat, response: Response, content: Bytes)
    requires |file| < TWO_63 && chunk >= 1
  {
    && AtCall(|file|, chunk, i, offset) && response == Serve(Some(file), offset, chunk) && response.code >= 0
    && FullChunks(file, chunk, i) && content == Received(file, chunk, i)
  }

  /** A reply with a positive code: one more full chunk, and the next offset to ask for. */
  lemma ChunkReceived(file: Bytes, chunk: nat, i: nat, offset: nat, response: Response, content: Bytes)
    requires |file| < TWO_63 && chunk >= 1 && Receiving(file, chunk, i, offset, response, content)
    requires response.code > 0
    ensures i + 1 < Calls(|file|, chunk) && AtCall(|file|, chunk, i + 1, response.code)
    ensures FullChunks(file, chunk, i + 1) && content + response.content == Received(file, chunk, i + 1)
  {
    ServeCall(file, chunk, i, offset);
    NextCall(|file|, chunk, i, offset);
  }

  /** A reply with code 0 ends the transfer. */
  lemma TransferDone(file: Bytes, chunk: nat, i: nat, offset: nat, response: Response, content: Bytes)
    requires |file| < TWO_63 && chunk >= 1 && Receiving(file, chunk, i, offset, response, content)
    requires response.code == 0
    ensures i + 1 == Calls(|file|, chunk) && Completes(|file|, chunk)
    ensures content + response.content == Outcome(file, chunk)
  {
    ServeCall(file, chunk, i, offset);
    LastCall(|file|, chunk, i, offset);
    if |file| <= chunk {
      assert i == 0 && content == [];
      assert 0 * Stride(chunk) == 0;
    }
  }

  /** A reply with a negative code shows that the transfer cannot complete. */
  lemma TransferFails(file: Bytes, chunk: nat, i: nat, offset: nat)
    requires |file| < TWO_63 && chunk >= 1 && AtCall(|file|, chunk, i, offset)
    requires Serve(Some(file), offset, chunk).code < 0
    ensures !Completes(|file|, chunk)
  {
    ServeCall(file, chunk, i, offset);
    if Stride(chunk) > 0 {
      NextCall(|file|, chunk, i, offset);
    } else {
      LastCall(|file|, chunk, i, offset);
    }
  }

  /** The call in the loop of `file_call`, for the offset the last reply named. */
  method AskNext(file: Bytes, chunk: nat, i: nat, ghost offset: nat, response: Response, ghost content: Bytes,
                 fault: int)
    returns (next: Response)
    requires |file| < TWO_63 && chunk >= 1 && Receiving(file, chunk, i, offset, response, content)
    requires response.code > 0 && fault <= 0
    ensures i + 1 < Calls(|file|, chunk)
    ensures next.code >= 0 ==>
              fault == 0 && Receiving(file, chunk, i + 1, response.code, next, content + response.content)
    ensures next.code < 0 ==> fault < 0 || !Completes(|file|, chunk)
  {
    ChunkReceived(file, chunk, i, offset, response, content);
    next := Call(Some(file), response.code, chunk, fault);
    if fault == 0 && next.code < 0 {
      TransferFails(file, chunk, i + 1, response.code);
    }
  }

  /** One round of the loop: the reply is written, and the next one fetched; when that fails the
      temporary file is removed. */
  method Round(disk: Disk, tmp: string, file: Bytes, chunk: nat, i: nat, ghost offset: nat, response: Response,
               fault: nat -> int)
    returns (next: Response)
    requires |file| < TWO_63 && chunk >= 1 && tmp in disk.files && fault(i + 1) <= 0 && NoFault(fault, i + 1)
    requires Receiving(file, chunk, i, offset, response, disk.files[tmp]) && response.code > 0
    modifies disk
    ensures i + 1 < Calls(|file|, chunk)
    ensures next.code >= 0 ==>
              && NoFault(fault, i + 2) && tmp in disk.files && disk.files == old(disk.files)[tmp := disk.files[tmp]]
              && Receiving(file, chunk, i + 1, response.code, next, disk.files[tmp])
    ensures next.code < 0 ==> !Succeeds(file, chunk, fault) && disk.files == old(disk.files) - {tmp}
  {
    var content := disk.files[tmp];
    disk.Append(tmp, response.content);
    next := AskNext(file, chunk, i, offset, response, content, fault(i + 1));
    if next.code < 0 {
      disk.files := disk.files - {tmp};
    }
  }

  /** The do-while loop of `file_call`, entered with the reply to the first call. */
  method ReceiveChunks(disk: Disk, tmp: string, file: Bytes, chunk: nat, fault: nat -> int, first: Response)
    returns (response: Response, calls: nat, ghost offset: nat)
    requires chunk >= 1 && |file| < TWO_63
    requires (forall i :: fault(i) <= 0) && NoFault(fault, 1)
    requires tmp in disk.files && Receiving(file, chunk, 0, 0, first, disk.files[tmp])
    modifies disk
    ensures response.code <= 0 && calls >= 1
    ensures response.code == 0 ==>
              && NoFault(fault, calls) && tmp in disk.files && disk.files == old(disk.files)[tmp := disk.files[tmp]]
              && Receiving(file, chunk, calls - 1, offset, response, disk.files[tmp])
    ensures response.code < 0 ==> !Succeeds(file, chunk, fault) && disk.files == old(disk.files) - {tmp}
  {
    response, offset, calls := first, 0, 1;
    while response.code > 0
      invariant calls >= 1 && tmp in disk.files && disk.files == old(disk.files)[tmp := disk.files[tmp]]
      invariant NoFault(fault, calls)
      invariant Receiving(file, chunk, calls - 1, offset, response, disk.files[tmp])
      decreases Calls(|file|, chunk) - calls
    {
      var next := Round(disk, tmp, file, chunk, calls - 1, offset, response, fault);
      offset, response, calls := response.code, next, calls + 1;
      if response.code < 0 {
        return;
      }
    }
  }

  /** The content of the last reply is written. */
  method WriteLast(disk: Disk, tmp: string, file: Bytes, chunk: nat, calls: nat, ghost offset: nat, response: Response)
    requires |file| < TWO_63 && chunk >= 1 && calls >= 1 && tmp in disk.files && response.code == 0
    requires Receiving(file, chunk, calls - 1, offset, response, disk.files[tmp])
    modifies disk
    ensures calls == Calls(|file|, chunk) && Completes(|file|, chunk)
    ensures disk.files == old(disk.files)[tmp := Outcome(file, chunk)]
  {
    TransferDone(file, chunk, calls - 1, offset, response, disk.files[tmp]);
    disk.Append(tmp, response.content);
  }

  /** The rest of `file_call`: the chunks, and the content of the last reply. */
  method ReceiveRest(disk: Disk, tmp: string, file: Bytes, chunk: nat, fault: nat -> int, first: Response)
    returns (code: int, calls: nat)
    requires chunk >= 1 && |file| < TWO_63
    requires (forall i :: fault(i) <= 0) && NoFault(fault, 1)
    requires tmp in disk.files && Receiving(file, chunk, 0, 0, first, disk.files[tmp])
    modifies disk
    ensures code == SUCCESS || code == FAILED
    ensures code == SUCCESS <==> Succeeds(file, chunk, fault)
    ensures code == SUCCESS ==>
              calls == Calls(|file|, chunk) && disk.files == old(disk.files)[tmp := Outcome(file, chunk)]
    ensures code != SUCCESS ==> disk.files == old(disk.files) - {tmp}
  {
    var response;
    ghost var offset;
    response, calls, offset := ReceiveChunks(disk, tmp, file, chunk, fault, first);
    if response.code < 0 {
      return FAILED, calls;
    }
    WriteLast(disk, tmp, file, chunk, calls, offset, response);
    code := SUCCESS;
  }

  /** With the client's own chunk size and no faults, a transfer of an existing file succeeds
      exactly for sizes up to 2^31 bytes; a larger one ends in FAILED with the temporary file
      removed. */
  method FetchFile(disk: Disk, name: string, file: Bytes) returns (path: string, code: int)
    requires |file| < TWO_63
    modifies disk
    ensures code == if |file| <= 0x8000_0000 then SUCCESS else FAILED
    ensures disk.files == if |file| <= 0x8000_0000 then old(disk.files)["/tmp/" + name := file]
                          else old(disk.files) - {"/tmp/" + name}
  {
    var calls;
    DefaultChunkLimit(|file|);
    path, code, calls := FileCall(disk, name, Some(file), MAX_SIZE_DATA, true, _ => 0, true);
  }
}
