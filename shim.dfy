/** The host runtime shim that supplies the compiled module's imports
    (`emsimp` in src/api/emsimp.ts; `defineWasmEnv` in src/api/wasm-env.ts
    is the same code with a different resize message). Its closure state
    (the bound heap views, the last fd-2 text and the console) becomes the
    fields of a class. */
module RuntimeShim {
  import opened Host
  import opened Memory
  import opened Buffers

  /** Which of the two copies of the shim this is. */
  datatype Flavour = Emsimp | WasmEnv

  /** The console method a line of text goes to. */
  datatype Channel = Debug | Error
  datatype LogLine = LogLine(channel: Channel, text: seq<byte>)

  const NUL: byte := 0
  const NEWLINE: byte := 10

  /** The only file descriptors the shim routes: 1 (stdout) and 2 (stderr). */
  predicate IsOpenFd(fd: int) { fd == 1 || fd == 2 }

  /** The text `console_out` hands the console: the tag, then the text with
      every NUL byte turned into a newline. */
  function ConsoleText(tag: seq<byte>, s: seq<byte>): (r: seq<byte>)
  {
    tag + seq(|s|, i requires 0 <= i < |s| => if s[i] == NUL then NEWLINE else s[i])
  }

  /** The logged line starts with the tag, has one byte per byte of text,
      keeps every non-NUL byte, and holds no NUL after the tag. */
  lemma ConsoleTextShape(tag: seq<byte>, s: seq<byte>)
    ensures var r := ConsoleText(tag, s);
      && |r| == |tag| + |s|
      && r[..|tag|] == tag
      && (forall i :: 0 <= i < |s| ==> r[|tag| + i] == (if s[i] == NUL then NEWLINE else s[i]))
      && (forall i :: |tag| <= i < |r| ==> r[i] != NUL)
  {
  }

  // ------------------------------------------------------------ iovecs

  /** Word index of the pointer and of the length of iovec i, for an iovec
      array at byte address iov. */
  function PtrWord(iov: nat, i: nat): nat { iov / 4 + 2 * i }
  function LenWord(iov: nat, i: nat): nat { iov / 4 + 2 * i + 1 }

  /** JavaScript's `x >> 2` on a nonnegative integer x: ToInt32 wraps x to
      a signed 32-bit value, and the shift is arithmetic (it rounds down). */
  function Shr2(x: nat): (r: int)
    ensures -0x2000_0000 <= r < 0x2000_0000
  {
    var u := x % TWO_32;
    (if u < 0x8000_0000 then u else u - TWO_32) / 4
  }

  /** Below 2^31, `x >> 2` is the word index x / 4; from 2^31 up to 2^32 it is
      negative, so a typed-array access through it reads `undefined` or
      stores nothing. */
  lemma ShiftIndex(x: nat)
    ensures x < 0x8000_0000 ==> Shr2(x) == x / 4
    ensures 0x8000_0000 <= x < TWO_32 ==> Shr2(x) < 0
  {
  }

  /** Record i is read at `(iov + 8i) >> 2` and `(iov + 8i + 4) >> 2`: the
      records are 8 bytes apart, pointer word first, and an unaligned array
      address is rounded down to a word boundary. The word indices agree with
      the source's shifts while the record lies below 2^31; a record at or
      above 2^31 (and below 2^32) has a negative index in the source. */
  lemma RecordWords(iov: nat, i: nat)
    ensures PtrWord(iov, i) == (iov + 8 * i) / 4
    ensures LenWord(iov, i) == (iov + 8 * i + 4) / 4
    ensures PtrWord(iov, i) == PtrWord(iov - iov % 4, i)
    ensures iov + 8 * i + 4 < 0x8000_0000 ==>
      PtrWord(iov, i) == Shr2(iov + 8 * i) && LenWord(iov, i) == Shr2(iov + 8 * i + 4)
    ensures 0x8000_0000 <= iov + 8 * i < TWO_32 ==> Shr2(iov + 8 * i) < 0
  {
    ShiftIndex(iov + 8 * i);
    ShiftIndex(iov + 8 * i + 4);
  }

  /** The first n iovec records can be read through the word view. */
  predicate IovecsReadable(mem: seq<byte>, iov: nat, n: nat)
  {
    n == 0 || LenWord(iov, n - 1) < WordCount(mem)
  }

  lemma IovecReadable(mem: seq<byte>, iov: nat, n: nat, i: nat)
    requires IovecsReadable(mem, iov, n) && i < n
    ensures PtrWord(iov, i) < LenWord(iov, i) < WordCount(mem)
  {
  }

  /** The bytes iovec i refers to (clamped to the memory, as `subarray` does). */
  function IovecBytes(mem: seq<byte>, iov: nat, i: nat): seq<byte>
    requires LenWord(iov, i) < WordCount(mem)
  {
    var start := Word(mem, PtrWord(iov, i));
    Subarray(mem, start, start + Word(mem, LenWord(iov, i)))
  }

  /** The byte ranges of the first k iovecs, in iovec order. */
  function IovecChunks(mem: seq<byte>, iov: nat, k: nat): (c: seq<seq<byte>>)
    requires IovecsReadable(mem, iov, k)
    ensures |c| == k
  {
    seq(k, i requires 0 <= i < k && IovecsReadable(mem, iov, k) => IovecBytes(mem, iov, i))
  }

  /** The text of the first k iovecs: their bytes concatenated in iovec order. */
  function IovecText(mem: seq<byte>, iov: nat, k: nat): seq<byte>
    requires IovecsReadable(mem, iov, k)
  {
    Flatten(IovecChunks(mem, iov, k))
  }

  /** The sum of the first k iovec lengths. */
  function IovecTotal(mem: seq<byte>, iov: nat, k: nat): nat
    requires IovecsReadable(mem, iov, k)
  {
    if k == 0 then 0 else IovecTotal(mem, iov, k - 1) + Word(mem, LenWord(iov, k - 1))
  }

  /** One more iovec appends its bytes to the text. */
  lemma IovecTextSnoc(mem: seq<byte>, iov: nat, k: nat)
    requires IovecsReadable(mem, iov, k + 1)
    ensures IovecsReadable(mem, iov, k)
    ensures IovecText(mem, iov, k + 1) == IovecText(mem, iov, k) + IovecBytes(mem, iov, k)
  {
    assert IovecChunks(mem, iov, k + 1) == IovecChunks(mem, iov, k) + [IovecBytes(mem, iov, k)];
    FlattenSnoc(IovecChunks(mem, iov, k), IovecBytes(mem, iov, k));
  }

  /** Record k of an array is record k - 1 of the array that starts 8 bytes later. */
  lemma IovecShift(mem: seq<byte>, iov: nat, k: nat)
    requires 0 < k && LenWord(iov, k) < WordCount(mem)
    ensures PtrWord(iov + 8, k - 1) == PtrWord(iov, k) && LenWord(iov + 8, k - 1) == LenWord(iov, k)
    ensures IovecBytes(mem, iov + 8, k - 1) == IovecBytes(mem, iov, k)
  {
    assert (iov + 8) / 4 == iov / 4 + 2;
  }

  /** Reading the records from the front: the first iovec's bytes, then the
      text of the records that start 8 bytes further on. */
  lemma IovecTextFront(mem: seq<byte>, iov: nat, k: nat)
    requires IovecsReadable(mem, iov, k + 1)
    ensures IovecsReadable(mem, iov + 8, k)
    ensures IovecText(mem, iov, k + 1) == IovecBytes(mem, iov, 0) + IovecText(mem, iov + 8, k)
  {
    assert (iov + 8) / 4 == iov / 4 + 2;
    var c := IovecChunks(mem, iov, k + 1);
    forall i | 0 < i < k + 1
      ensures c[i] == IovecChunks(mem, iov + 8, k)[i - 1]
    {
      IovecShift(mem, iov, i);
    }
    assert c[1..] == IovecChunks(mem, iov + 8, k);
  }

  /** The same for the summed lengths. */
  lemma {:induction false} IovecTotalFront(mem: seq<byte>, iov: nat, k: nat)
    requires IovecsReadable(mem, iov, k + 1)
    ensures IovecsReadable(mem, iov + 8, k)
    ensures IovecTotal(mem, iov, k + 1) == Word(mem, LenWord(iov, 0)) + IovecTotal(mem, iov + 8, k)
  {
    assert (iov + 8) / 4 == iov / 4 + 2;
    if k > 0 {
      IovecShift(mem, iov, k);
      IovecTotalFront(mem, iov, k - 1);
    }
  }

  /** The concatenated text is never longer than the summed lengths, and is
      exactly that long when every referenced range lies inside the memory. */
  lemma {:induction false} IovecTextLength(mem: seq<byte>, iov: nat, k: nat)
    requires IovecsReadable(mem, iov, k)
    ensures |IovecText(mem, iov, k)| <= IovecTotal(mem, iov, k)
    ensures (forall i :: 0 <= i < k ==> Word(mem, PtrWord(iov, i)) + Word(mem, LenWord(iov, i)) <= |mem|)
      ==> |IovecText(mem, iov, k)| == IovecTotal(mem, iov, k)
  {
    if k > 0 {
      IovecTextLength(mem, iov, k - 1);
      IovecTextSnoc(mem, iov, k - 1);
    }
  }

  /** One step of the `write` loop, with the record read at the running
      address iov = ipIov + 8i. */
  lemma GatherStep(mem: seq<byte>, ipIov: nat, n: nat, i: nat, iov: nat, text: seq<byte>, total: nat)
    requires iov == ipIov + 8 * i && IovecsReadable(mem, ipIov, n) && i < n
    requires IovecsReadable(mem, ipIov, i) && text == IovecText(mem, ipIov, i) && total == IovecTotal(mem, ipIov, i)
    ensures IovecsReadable(mem, ipIov, i + 1) && (iov + 4) / 4 < WordCount(mem)
    ensures var start: nat := Word(mem, iov / 4);
      var len: nat := Word(mem, (iov + 4) / 4);
      && text + Subarray(mem, start, start + len) == IovecText(mem, ipIov, i + 1)
      && total + len == IovecTotal(mem, ipIov, i + 1)
  {
    IovecReadable(mem, ipIov, n, i);
    RecordWords(ipIov, i);
    assert iov / 4 == PtrWord(ipIov, i) && (iov + 4) / 4 == LenWord(ipIov, i);
    IovecTextSnoc(mem, ipIov, i);
  }

  /** The loop of `write`: walks the nlIovs records at ipIov in the heap's
      bytes, appending each referenced byte range to the text and adding
      each length to the total. */
  method Gather(mem: seq<byte>, ipIov: nat, nlIovs: nat) returns (sOut: seq<byte>, cbRead: nat)
    requires IovecsReadable(mem, ipIov, nlIovs)
    ensures sOut == IovecText(mem, ipIov, nlIovs)
    ensures cbRead == IovecTotal(mem, ipIov, nlIovs)
  {
    sOut := [];
    cbRead := 0;
    var iov := ipIov;
    for i := 0 to nlIovs
      invariant iov == ipIov + 8 * i
      invariant sOut == IovecText(mem, ipIov, i)
      invariant cbRead == IovecTotal(mem, ipIov, i)
    {
      GatherStep(mem, ipIov, nlIovs, i, iov, sOut, cbRead);
      var start: nat := Word(mem, iov / 4);
      var len: nat := Word(mem, (iov + 4) / 4);
      iov := iov + 8;
      sOut := sOut + Subarray(mem, start, start + len);
      cbRead := cbRead + len;
    }
  }

  /** The bytes of `write`'s `ip_written` word after a successful write of
      `total` bytes: the total modulo 2^32 when the word exists, otherwise
      nothing changes (a typed-array store out of range is ignored). */
  function StoreCount(mem: seq<byte>, written: nat, total: nat): (m: seq<byte>)
    ensures |m| == |mem|
  {
    if written / 4 < WordCount(mem) then StoreWord(mem, written / 4, total % TWO_32) else mem
  }

  /** Message of the error `write` throws for a descriptor other than 1 or 2. */
  function BadFdText(fd: int, text: seq<byte>): seq<byte>
  {
    Ascii("libsecp256k1 tried writing to non-open file descriptor: " + NumberText(fd) + "\n") + text
  }

  const UNKNOWN_ERROR: seq<byte> := Ascii("An unknown error occurred")

  /** What `abort` throws: the tag, then the last fd-2 text, or the
      unknown-error text when nothing (or nothing but "") was written to fd 2. */
  function AbortMessage(tag: seq<byte>, sError: seq<byte>): (m: seq<byte>)
    ensures sError == [] ==> m == tag + UNKNOWN_ERROR
    ensures sError != [] ==> m == tag + sError
  {
    tag + (if sError == [] then UNKNOWN_ERROR else sError)
  }

  /** What `resize` throws for a request of w bytes; only the second shim
      names the request. */
  function ResizeMessage(flavour: Flavour, tag: seq<byte>, w: int): seq<byte>
  {
    match flavour
    case Emsimp => tag + Ascii("Out of memory")
    case WasmEnv => tag + Ascii("Out of memory (resizing " + NumberText(w) + ")")
  }

  /** The shim's observable closure state besides the heap. */
  datatype Log = Log(sError: seq<byte>, console: seq<LogLine>)

  /** The fd table applied to a text: fd 1 logs it on the debug channel; fd 2
      makes it the last error and logs it on the error channel. */
  function Routed(tag: seq<byte>, log: Log, fd: int, text: seq<byte>): (l: Log)
    requires IsOpenFd(fd)
  {
    Log(if fd == 2 then text else log.sError,
        log.console + [LogLine(if fd == 1 then Debug else Error, ConsoleText(tag, text))])
  }

  /** The last fd-2 text always wins, and an fd-1 write leaves it alone. */
  lemma RoutedLastError(tag: seq<byte>, log: Log, t1: seq<byte>, t2: seq<byte>)
    ensures Routed(tag, Routed(tag, log, 2, t1), 2, t2).sError == t2
    ensures Routed(tag, Routed(tag, log, 2, t1), 1, t2).sError == t1
    ensures |Routed(tag, log, 1, t1).console| == |log.console| + 1
  {
  }

  class Shim {
    const flavour: Flavour
    /** The caller's tag with ": " appended. */
    const tag: seq<byte>
    /** The heap views: the byte view is `heap`, the word view is `Word(heap[..], _)`. */
    var heap: array<byte>
    /** Whether the heap binder has run. */
    var bound: bool
    /** The text of the last write to fd 2. */
    var sError: seq<byte>
    /** Everything sent to the console, in order. */
    var console: seq<LogLine>

    /** `emsimp(f_map_imports, s_tag)`. */
    constructor Emsimp(sTag: seq<byte>)
      ensures flavour == Flavour.Emsimp && tag == sTag + Ascii(": ")
      ensures !bound && sError == [] && console == []
    {
      flavour := Flavour.Emsimp;
      tag := sTag + Ascii(": ");
      heap := new byte[0];
      bound := false;
      sError := [];
      console := [];
    }

    /** `defineWasmEnv(label)`. */
    constructor DefineWasmEnv(sLabel: seq<byte>)
      ensures flavour == WasmEnv && tag == sLabel + Ascii(": ")
      ensures !bound && sError == [] && console == []
    {
      flavour := WasmEnv;
      tag := sLabel + Ascii(": ");
      heap := new byte[0];
      bound := false;
      sError := [];
      console := [];
    }

    /** The heap binder: installs the byte view and the word view over the
      module's memory buffer. A wasm memory is whole 64 KiB pages, so its
      length is a multiple of 4, as a Uint32Array over it requires. */
    method Bind(memory: array<byte>)
      requires memory.Length % 4 == 0
      modifies this
      ensures heap == memory && bound
      ensures WordCount(heap[..]) * 4 == heap.Length
      ensures sError == old(sError) && console == old(console)
    {
      heap := memory;
      bound := true;
    }

    /** The message `abort` throws. */
    function AbortText(): seq<byte>
      reads this
    {
      AbortMessage(tag, sError)
    }

    function Logs(): Log
      reads this
    {
      Log(sError, console)
    }

    /** The `abort` import always throws: the tag, then the last fd-2 text,
      or the unknown-error text if nothing was written to fd 2. */
    method Abort() returns (r: Outcome<()>)
      ensures r.Throw?
      ensures sError == [] ==> r.message == tag + UNKNOWN_ERROR
      ensures sError != [] ==> r.message == tag + sError
    {
      r := Throw(AbortText());
    }

    /** The message `resize` throws for a request of w bytes. */
    function ResizeText(w: int): seq<byte>
    {
      ResizeMessage(flavour, tag, w)
    }

    /** The `resize` import refuses every request. */
    method Resize(w: int) returns (r: Outcome<()>)
      ensures r == Throw(ResizeText(w))
    {
      r := Throw(ResizeText(w));
    }

    /** The `memcpy` import: `copyWithin(dst, src, src + size)` on the byte
      view, an in-place move that is safe for overlapping ranges. */
    method Memcpy(dst: nat, src: nat, size: nat)
      requires bound
      modifies heap
      ensures heap[..] == CopyWithin(old(heap[..]), dst, src, src + size)
    {
      ghost var m := heap[..];
      var len := heap.Length;
      var to := Min(dst, len);
      var from := Min(src, len);
      var count := CopyCount(len, dst, src, src + size);
      if from < to && to < from + count {
        // the source precedes the target and overlaps it: move the last byte first
        MoveDown(to, from, count);
      } else {
        MoveUp(to, from, count);
      }
      assert forall k :: 0 <= k < len ==> heap[..][k] == CopyWithin(m, dst, src, src + size)[k];
    }

    /** Moves count bytes from `from` to `to`, last byte first. */
    method MoveDown(to: nat, from: nat, count: nat)
      requires to + count <= heap.Length && from + count <= heap.Length
      requires from < to
      modifies heap
      ensures forall k :: 0 <= k < heap.Length ==>
        heap[k] == if to <= k < to + count then old(heap[from + (k - to)]) else old(heap[k])
    {
      ghost var m := heap[..];
      var i := count;
      while i > 0
        invariant 0 <= i <= count
        invariant forall k {:trigger heap[k]} :: 0 <= k < heap.Length ==>
          heap[k] == if to + i <= k < to + count then m[from + (k - to)] else m[k]
      {
        i := i - 1;
        heap[to + i] := heap[from + i];
      }
    }

    /** Moves count bytes from `from` to `to`, first byte first. */
    method MoveUp(to: nat, from: nat, count: nat)
      requires to + count <= heap.Length && from + count <= heap.Length
      requires to <= from || from + count <= to
      modifies heap
      ensures forall k :: 0 <= k < heap.Length ==>
        heap[k] == if to <= k < to + count then old(heap[from + (k - to)]) else old(heap[k])
    {
      ghost var m := heap[..];
      var i := 0;
      while i < count
        invariant 0 <= i <= count
        invariant forall k {:trigger heap[k]} :: 0 <= k < heap.Length ==>
          heap[k] == if to <= k < to + i then m[from + (k - to)] else m[k]
      {
        heap[to + i] := heap[from + i];
        i := i + 1;
      }
    }

    /** The `write` import (`fd_write`): gathers the iovecs' bytes and their
      total length, routes the text to fd 1 or fd 2, stores the total into
      word `ip_written >> 2` and returns 0. Any other descriptor throws
      before the count is stored. */
    method Write(fd: int, ipIov: nat, nlIovs: nat, ipWritten: nat) returns (r: Outcome<int>)
      requires bound && IovecsReadable(heap[..], ipIov, nlIovs)
      modifies this, heap
      ensures heap == old(heap) && bound
      ensures var text := IovecText(old(heap[..]), ipIov, nlIovs);
        var total := IovecTotal(old(heap[..]), ipIov, nlIovs);
        if IsOpenFd(fd) then
          && r == Return(0)
          && heap[..] == StoreCount(old(heap[..]), ipWritten, total)
          && sError == (if fd == 2 then text else old(sError))
          && console == old(console) + [LogLine(if fd == 1 then Debug else Error, ConsoleText(tag, text))]
        else
          && r == Throw(BadFdText(fd, text))
          && heap[..] == old(heap[..])
          && sError == old(sError) && console == old(console)
    {
      var sOut, cbRead := Gather(heap[..], ipIov, nlIovs);
      var routed := Route(fd, sOut);
      if routed.Throw? {
        return Throw(routed.message);
      }
      if ipWritten / 4 < heap.Length / 4 {
        StoreU32(ipWritten / 4, cbRead % TWO_32);
      }
      r := Return(0);
    }

    /** `h_fds[fd](text)`, or the error for a descriptor without an entry. */
    method Route(fd: int, text: seq<byte>) returns (r: Outcome<()>)
      modifies this
      ensures heap == old(heap) && bound == old(bound)
      ensures IsOpenFd(fd) ==> r == Return(()) && Logs() == Routed(tag, old(Logs()), fd, text)
      ensures !IsOpenFd(fd) ==> r == Throw(BadFdText(fd, text)) && Logs() == old(Logs())
    {
      if fd == 1 {
        console := console + [LogLine(Debug, ConsoleText(tag, text))];
      } else if fd == 2 {
        sError := text;
        console := console + [LogLine(Error, ConsoleText(tag, text))];
      } else {
        return Throw(BadFdText(fd, text));
      }
      r := Return(());
    }

    /** `HEAPU32[k] = v`. */
    method StoreU32(k: nat, v: u32)
      requires k < WordCount(heap[..])
      modifies heap
      ensures heap[..] == StoreWord(old(heap[..]), k, v)
    {
      var bytes := LeBytes(v);
      heap[4 * k], heap[4 * k + 1], heap[4 * k + 2], heap[4 * k + 3] := bytes[0], bytes[1], bytes[2], bytes[3];
      assert forall i :: 0 <= i < heap.Length ==> heap[..][i] == StoreWord(old(heap[..]), k, v)[i];
    }
  }

  /** A client of the shim: after the module writes a non-empty diagnostic to
      fd 2, `abort` reports exactly the tag followed by that diagnostic. */
  method WriteErrorThenAbort(shim: Shim, ipIov: nat, nlIovs: nat, ipWritten: nat) returns (r: Outcome<()>)
    requires shim.bound && IovecsReadable(shim.heap[..], ipIov, nlIovs)
    requires IovecText(shim.heap[..], ipIov, nlIovs) != []
    modifies shim, shim.heap
    ensures r == Throw(shim.tag + IovecText(old(shim.heap[..]), ipIov, nlIovs))
  {
    var w := shim.Write(2, ipIov, nlIovs, ipWritten);
    r := shim.Abort();
  }
}
