/**
 The host console log: an unbounded UART byte stream kept in a fixed circular
 buffer that the UART's DMA engine fills chunk by chunk.

 The log is a state machine. Its steps are the UART driver's callbacks and the
 DMA engine's writes; the conditions under which the driver makes a step are
 the contract of the asynchronous UART driver, stated in Enabled.
 */
module ConsoleRing {
  import opened Bytes
  import opened Cyclic
  import opened Errno

  /** The share of the log that one DMA transfer fills. */
  function ChunkSize(size: nat): nat {
    size / 16
  }

  /** Log sizes the configuration admits whose chunks tile the log. */
  predicate Geometry(size: nat) {
    64 <= size <= 65536 && Mod(size, ChunkSize(size)) == 0
  }

  /** Where in the log a stream position is kept. */
  function Slot(size: nat, q: nat): nat
    requires size > 0
  {
    Mod(q, size)
  }

  /** Where in the log the chunk number k starts. */
  function ChunkOffset(size: nat, k: nat): nat
    requires size > 0
  {
    Slot(size, Times(ChunkSize(size), k))
  }

  /** First position of the chunk that holds position x. */
  function ChunkFloor(size: nat, x: nat): nat
    requires ChunkSize(size) > 0
  {
    x - Mod(x, ChunkSize(size))
  }

  /**
   granted:  position up to which chunks have been given to the driver;
   received: position up to which the driver has reported data;
   handed:   offsets of all chunks given to the driver, in order;
   buffer:   the log memory;
   stream:   every byte the DMA engine has stored since the log was created.
   */
  datatype Log = Log(size: nat, granted: nat, received: nat,
                     handed: seq<nat>, buffer: seq<byte>, stream: seq<byte>)

  datatype Step =
    | RxStart
    | BufRequest
    | DmaWrite(b: byte)
    | RxRdy(len: nat)

  function Fresh(size: nat, memory: seq<byte>): Log {
    Log(size, 0, 0, [], memory, [])
  }

  /** How far the DMA engine may write before the driver reports again. */
  function DmaLimit(l: Log): nat
    requires ChunkSize(l.size) > 0
  {
    Min(l.granted, ChunkFloor(l.size, l.received) + ChunkSize(l.size))
  }

  /** Oldest position a reader is given. */
  function Start(l: Log): int {
    if l.received < l.size then 0 else l.granted - l.size
  }

  /** The contract of the UART driver: when each step may happen. */
  predicate Enabled(l: Log, s: Step)
    requires ChunkSize(l.size) > 0
  {
    match s
    case RxStart => l.received == l.granted
    case BufRequest => l.granted <= ChunkFloor(l.size, l.received) + ChunkSize(l.size)
    case DmaWrite(_) => |l.stream| < DmaLimit(l)
    case RxRdy(len) => l.received + len <= |l.stream|
  }

  /** Both a start and a buffer request give the driver the next chunk. */
  function Grant(l: Log): Log
    requires l.size > 0
  {
    l.(granted := l.granted + ChunkSize(l.size),
       handed := l.handed + [Slot(l.size, l.granted)])
  }

  /** The address the DMA engine writes next: inside the chunk it was given. */
  function DmaSlot(l: Log): nat
    requires ChunkSize(l.size) > 0
    requires Div(|l.stream|, ChunkSize(l.size)) < |l.handed|
  {
    l.handed[Div(|l.stream|, ChunkSize(l.size))] + Mod(|l.stream|, ChunkSize(l.size))
  }

  function Next(l: Log, s: Step): Log
    requires Inv(l) && Enabled(l, s)
  {
    match s
    case RxStart => Grant(l)
    case BufRequest => Grant(l)
    case DmaWrite(b) =>
      DmaSlotIsPosition(l);
      l.(buffer := l.buffer[DmaSlot(l) := b], stream := l.stream + [b])
    case RxRdy(len) => l.(received := l.received + len)
  }

  ghost predicate Holds(l: Log, q: nat)
    requires l.size > 0 && |l.buffer| == l.size && q < |l.stream|
  {
    l.buffer[Slot(l.size, q)] == l.stream[q]
  }

  ghost predicate Inv(l: Log) {
    && Geometry(l.size)
    && |l.buffer| == l.size
    && l.granted == Times(ChunkSize(l.size), |l.handed|)
    && (forall k :: 0 <= k < |l.handed| ==> l.handed[k] == ChunkOffset(l.size, k))
    && l.received <= |l.stream| <= DmaLimit(l)
    && l.granted <= ChunkFloor(l.size, l.received) + 2 * ChunkSize(l.size)
    && (forall q :: 0 <= q < |l.stream| && |l.stream| <= q + l.size ==> Holds(l, q))
  }

  lemma ChunkFits(size: nat, k: nat)
    requires Geometry(size)
    ensures ChunkOffset(size, k) + ChunkSize(size) <= size
  {
    var c := ChunkSize(size);
    ModTimes(c, k);
    ModMod(Times(c, k), size, c);
    MultiplesApart(ChunkOffset(size, k), size, c);
  }

  /**
   Every chunk given to the driver, a sixteenth of the log, lies inside the log
   exactly when that divides the log size. The configured range alone does not
   ensure it.
   */
  lemma ChunksFitIff(size: nat)
    requires 64 <= size <= 65536
    ensures (forall k: nat :: ChunkOffset(size, k) + size / 16 <= size)
            <==> size % (size / 16) == 0
  {
    var c := ChunkSize(size);
    DivModNative(size, c);
    if Mod(size, c) == 0 {
      forall k: nat ensures ChunkOffset(size, k) + c <= size {
        ChunkFits(size, k);
      }
    } else {
      var k := Div(size, c);
      DivModSplit(size, c);
      assert ChunkOffset(size, k) + c > size;
    }
  }

  /** The configured range admits 100, whose chunk number 16 would run past the end of the log. */
  lemma ChunkPastTheEnd()
    ensures ChunkOffset(100, 16) == 96 && ChunkSize(100) == 6 && 96 + 6 > 100
    ensures !(forall k: nat :: ChunkOffset(100, k) + ChunkSize(100) <= 100)
  {
    assert Times(6, 4) == 24;
    assert Times(6, 8) == 48;
    assert Times(6, 12) == 72;
    assert Times(6, 16) == 96;
  }

  // ---------------------------------------------------------------------
  // The invariant of every run
  // ---------------------------------------------------------------------

  /** The address the DMA engine writes is the slot of the stream position it writes. */
  lemma DmaSlotIsPosition(l: Log)
    requires Inv(l) && |l.stream| < l.granted
    ensures Div(|l.stream|, ChunkSize(l.size)) < |l.handed|
    ensures DmaSlot(l) == Slot(l.size, |l.stream|) < |l.buffer|
  {
    var c, w := ChunkSize(l.size), |l.stream|;
    var k := Div(w, c);
    DivBelow(w, c, |l.handed|);
    DivModSplit(w, c);
    ChunkFits(l.size, k);
    ModAdvance(Times(c, k), Mod(w, c), l.size);
  }

  /**
   The DMA engine, however far it gets before the next report, cannot come
   round to the oldest position a reader is given. While `received < size` the
   window starts at 0 even if more than `size` bytes have been granted; that
   is safe because the end of the log is a chunk boundary.
   */
  lemma WindowCovers(l: Log)
    requires Inv(l)
    ensures 0 <= Start(l) <= l.received <= |l.stream|
    ensures DmaLimit(l) <= Start(l) + l.size
  {
    var c := ChunkSize(l.size);
    if l.received < l.size {
      ModFloor(l.received, c);
      MultiplesApart(ChunkFloor(l.size, l.received), l.size, c);
    }
  }

  lemma GrantKeepsInv(l: Log)
    requires Inv(l) && l.granted <= ChunkFloor(l.size, l.received) + ChunkSize(l.size)
    ensures Inv(Grant(l))
  {
    var l' := Grant(l);
    forall q | 0 <= q < |l'.stream| && |l'.stream| <= q + l'.size ensures Holds(l', q) {
      assert Holds(l, q);
    }
  }

  lemma DmaWriteKeepsInv(l: Log, b: byte)
    requires Inv(l) && Enabled(l, DmaWrite(b))
    ensures Inv(Next(l, DmaWrite(b)))
  {
    var l' := Next(l, DmaWrite(b));
    DmaSlotIsPosition(l);
    forall q | 0 <= q < |l'.stream| && |l'.stream| <= q + l'.size ensures Holds(l', q) {
      if q < |l.stream| {
        assert Holds(l, q);
        ModDistinct(q, |l.stream|, l.size);
      }
    }
  }

  lemma RxRdyKeepsInv(l: Log, len: nat)
    requires Inv(l) && Enabled(l, RxRdy(len))
    ensures Inv(Next(l, RxRdy(len)))
  {
    var l' := Next(l, RxRdy(len));
    FloorMonotone(l.received, l'.received, ChunkSize(l.size));
    forall q | 0 <= q < |l'.stream| && |l'.stream| <= q + l'.size ensures Holds(l', q) {
      assert Holds(l, q);
    }
  }

  lemma NextKeepsInv(l: Log, s: Step)
    requires Inv(l) && Enabled(l, s)
    ensures Inv(Next(l, s))
  {
    match s
    case RxStart => GrantKeepsInv(l);
    case BufRequest => GrantKeepsInv(l);
    case DmaWrite(b) => DmaWriteKeepsInv(l, b);
    case RxRdy(len) => RxRdyKeepsInv(l, len);
  }

  // ---------------------------------------------------------------------
  // Theorems about runs
  // ---------------------------------------------------------------------

  ghost predicate ValidRun(l: Log, run: seq<Step>)
    requires Inv(l)
    decreases run
  {
    run != [] ==>
      && Enabled(l, run[0])
      && (NextKeepsInv(l, run[0]);
          ValidRun(Next(l, run[0]), run[1..]))
  }

  ghost function After(l: Log, run: seq<Step>): (l': Log)
    requires Inv(l) && ValidRun(l, run)
    ensures Inv(l')
    decreases run
  {
    if run == [] then l
    else
      NextKeepsInv(l, run[0]);
      After(Next(l, run[0]), run[1..])
  }

  function StepBytes(s: Step): seq<byte> {
    if s.DmaWrite? then [s.b] else []
  }

  /** What a run puts on the wire, and how much of it the driver reports. */
  function Written(run: seq<Step>): seq<byte> {
    if run == [] then [] else StepBytes(run[0]) + Written(run[1..])
  }

  function Reported(run: seq<Step>): nat {
    if run == [] then 0
    else (if run[0].RxRdy? then run[0].len else 0) + Reported(run[1..])
  }

  lemma StepAccounts(l: Log, s: Step)
    requires Inv(l) && Enabled(l, s)
    ensures var l' := Next(l, s);
      && l'.size == l.size
      && l'.stream == l.stream + StepBytes(s)
      && l'.received == l.received + Reported([s])
      && Start(l) <= Start(l')
  {
  }

  lemma {:induction false} RunAccounts(l: Log, run: seq<Step>)
    requires Inv(l) && ValidRun(l, run)
    ensures After(l, run).size == l.size
    ensures After(l, run).received == l.received + Reported(run)
    ensures Start(l) <= Start(After(l, run))
    decreases run
  {
    if run != [] {
      StepAccounts(l, run[0]);
      NextKeepsInv(l, run[0]);
      RunAccounts(Next(l, run[0]), run[1..]);
    }
  }

  /** How many chunks a run gives to the driver. */
  function Granted(run: seq<Step>): nat {
    if run == [] then 0
    else (if run[0].RxStart? || run[0].BufRequest? then 1 else 0) + Granted(run[1..])
  }

  lemma {:induction false} RunGrants(l: Log, run: seq<Step>)
    requires Inv(l) && ValidRun(l, run)
    ensures After(l, run).granted == l.granted + Times(l.size / 16, Granted(run))
    decreases run
  {
    if run != [] {
      StepAccounts(l, run[0]);
      NextKeepsInv(l, run[0]);
      RunGrants(Next(l, run[0]), run[1..]);
    }
  }

  lemma {:induction false} RunWrites(l: Log, run: seq<Step>)
    requires Inv(l) && ValidRun(l, run)
    ensures After(l, run).stream == l.stream + Written(run)
    decreases run
  {
    if run != [] {
      StepAccounts(l, run[0]);
      NextKeepsInv(l, run[0]);
      RunWrites(Next(l, run[0]), run[1..]);
      Associate(l.stream, StepBytes(run[0]), Written(run[1..]));
    }
  }

  /**
   The ring refines the unbounded stream: after any run, the positions the
   reader may see hold exactly the bytes the DMA engine delivered there, and
   the three positions stay in step.
   */
  lemma RingRefinesStream(size: nat, memory: seq<byte>, run: seq<Step>)
    requires Geometry(size) && |memory| == size
    requires ValidRun(Fresh(size, memory), run)
    ensures var l, c := After(Fresh(size, memory), run), ChunkSize(size);
      && l.size == size && |l.buffer| == size
      && l.received == Reported(run)
      && Mod(l.granted, c) == 0
      && l.received <= |Written(run)| <= l.granted <= l.received + 2 * c
      && |Written(run)| <= ChunkFloor(size, l.received) + c
      && 0 <= Start(l) <= l.received
      && (forall q :: Start(l) <= q < l.received ==> l.buffer[Slot(size, q)] == Written(run)[q])
  {
    var l := After(Fresh(size, memory), run);
    RunAccounts(Fresh(size, memory), run);
    RunWrites(Fresh(size, memory), run);
    WindowCovers(l);
    ModTimes(ChunkSize(size), |l.handed|);
    forall q | Start(l) <= q < l.received ensures l.buffer[Slot(size, q)] == Written(run)[q] {
      assert Holds(l, q);
    }
  }

  /** Everything is readable until the log has filled once; then all but two chunks are. */
  lemma Retention(l: Log)
    requires Inv(l)
    ensures l.received < l.size ==> Start(l) == 0
    ensures l.received >= l.size ==> l.received - Start(l) >= l.size - 2 * ChunkSize(l.size)
    ensures l.received >= l.size && l.size % 16 == 0 ==> 8 * (l.received - Start(l)) >= 7 * l.size
  {
  }

  /**
   The window is as wide as it can safely be: the position just before it has
   been given to the DMA engine again.
   */
  lemma WindowIsWidest(l: Log)
    requires Inv(l) && Start(l) > 0
    ensures exists x :: Start(l) - 1 < x < l.granted && Slot(l.size, Start(l) - 1) == Slot(l.size, x)
  {
    assert Slot(l.size, Start(l) - 1 + l.size) == Slot(l.size, Start(l) - 1);
  }

  /** Each chunk handed over lies inside the log; no two unreported positions share a slot. */
  lemma OutstandingChunks(l: Log)
    requires Inv(l)
    ensures forall k :: 0 <= k < |l.handed| ==> l.handed[k] + ChunkSize(l.size) <= l.size
    ensures forall x, y :: ChunkFloor(l.size, l.received) <= x < y < l.granted
              ==> Slot(l.size, x) != Slot(l.size, y)
  {
    forall k | 0 <= k < |l.handed| ensures l.handed[k] + ChunkSize(l.size) <= l.size {
      ChunkFits(l.size, k);
    }
    forall x, y | ChunkFloor(l.size, l.received) <= x < y < l.granted
      ensures Slot(l.size, x) != Slot(l.size, y)
    {
      ModDistinct(x, y, l.size);
    }
  }

  /** No slot the DMA engine may write before the next report is one a reader copies from. */
  lemma DmaAvoidsWindow(l: Log)
    requires Inv(l)
    ensures forall q, x :: Start(l) <= q < l.received && |l.stream| <= x < DmaLimit(l)
              ==> Slot(l.size, q) != Slot(l.size, x)
  {
    WindowCovers(l);
    forall q, x | Start(l) <= q < l.received && |l.stream| <= x < DmaLimit(l)
      ensures Slot(l.size, q) != Slot(l.size, x)
    {
      ModDistinct(q, x, l.size);
    }
  }

  /**
   A whole outstanding chunk does overlap the reader's window in one case
   only: the log has not filled yet but the chunk after its end is granted.
   There the DMA engine is held back by DmaAvoidsWindow, not by Start.
   */
  lemma OutstandingOverlapsIff(l: Log)
    requires Inv(l)
    ensures (exists q, x :: Start(l) <= q < l.received <= x < l.granted && Slot(l.size, q) == Slot(l.size, x))
            <==> l.received < l.size < l.granted
  {
    WindowCovers(l);
    if l.received < l.size < l.granted {
      assert Slot(l.size, 0) == Slot(l.size, l.size);
    } else {
      forall q, x | Start(l) <= q < l.received <= x < l.granted
        ensures Slot(l.size, q) != Slot(l.size, x)
      {
        ModDistinct(q, x, l.size);
      }
    }
  }

  /**
   The restart handler gives the driver the chunk at `granted` and leaves
   `received` alone, so the bytes that follow land where readers look for them
   exactly when everything granted before the stop had been reported.
   */
  lemma RestartKeepsPositionIff(l: Log)
    requires Inv(l)
    ensures Grant(l).handed[|l.handed|] == Slot(l.size, l.received) <==> l.received == l.granted
  {
    if l.received < l.granted {
      ModDistinct(l.received, l.granted, l.size);
    }
  }

  /** One byte arrives and is reported, and then the UART stops with most of its chunk unused. */
  function StopMidChunk(b: byte): seq<Step> {
    [RxStart, DmaWrite(b), RxRdy(1)]
  }

  lemma {:induction false} AfterStep(l: Log, s: Step, rest: seq<Step>)
    requires Inv(l) && Enabled(l, s) && Inv(Next(l, s)) && ValidRun(Next(l, s), rest)
    ensures ValidRun(l, [s] + rest) && After(l, [s] + rest) == After(Next(l, s), rest)
  {
    assert ([s] + rest)[1..] == rest;
  }

  /**
   The stop is reachable for every log size, and the restart after it loses the
   place: the next byte that the DMA engine stores, at the start of the chunk
   the restart gives it, is not where a reader looks for the next position. The
   reader gets whatever memory held there before the log was created.
   */
  lemma RestartLosesPlace(size: nat, memory: seq<byte>, b: byte, next: byte)
    requires Geometry(size) && |memory| == size
    ensures Inv(Fresh(size, memory)) && ValidRun(Fresh(size, memory), StopMidChunk(b))
    ensures var l := After(Fresh(size, memory), StopMidChunk(b));
      && l.received == 1 < l.granted
      && var offset := Grant(l).handed[|l.handed|];
      && offset < size && offset != Slot(size, l.received)
      && l.buffer[offset := next][Slot(size, l.received)] == memory[1]
  {
    var s0 := Fresh(size, memory);
    NextKeepsInv(s0, RxStart);
    var s1 := Next(s0, RxStart);
    NextKeepsInv(s1, DmaWrite(b));
    DmaSlotIsPosition(s1);
    var s2 := Next(s1, DmaWrite(b));
    NextKeepsInv(s2, RxRdy(1));
    var s3 := Next(s2, RxRdy(1));
    AfterStep(s2, RxRdy(1), []);
    AfterStep(s1, DmaWrite(b), [RxRdy(1)]);
    AfterStep(s0, RxStart, [DmaWrite(b), RxRdy(1)]);
    assert StopMidChunk(b) == [RxStart] + ([DmaWrite(b)] + ([RxRdy(1)] + []));
    RestartKeepsPositionIff(s3);
    ChunkFits(size, 1);
  }

  // ---------------------------------------------------------------------
  // Reading
  // ---------------------------------------------------------------------

  datatype ReadResult = ReadResult(ret: int, pos: nat, bytes: seq<byte>)

  /** A read of up to n bytes at pos, stated on the stream instead of the ring. */
  ghost function ReadSpec(l: Log, pos: nat, n: nat): (r: ReadResult)
    requires Inv(l)
    ensures |r.bytes| <= n
  {
    if pos > l.received then ReadResult(-EINVAL, pos, [])
    else
      WindowCovers(l);
      var p: nat := Max(pos, Start(l));
      var m: nat := Min(n, l.received - p);
      ReadResult(m, p + m, l.stream[p..p + m])
  }

  /**
   A read refuses exactly a cursor past the received data. Otherwise it starts
   at the cursor, or at the window if that is later, and delivers the whole
   request unless it reaches the end of the data.
   */
  lemma ReadIsMaximal(l: Log, pos: nat, n: nat)
    requires Inv(l)
    ensures var r := ReadSpec(l, pos, n);
      && (pos > l.received ==> r == ReadResult(-EINVAL, pos, []))
      && (pos <= l.received ==>
            && r.ret == |r.bytes| && r.pos >= r.ret
            && r.pos - r.ret == (if pos < Start(l) then Start(l) else pos)
            && (r.ret == n || r.pos == l.received)
            && forall k :: 0 <= k < r.ret ==> r.bytes[k] == l.stream[r.pos - r.ret + k])
  {
    WindowCovers(l);
  }

  /** What may have happened while the receive lock was held: DMA writes only. */
  ghost predicate DmaOnly(l: Log, l': Log) {
    && Inv(l')
    && l'.size == l.size && l'.granted == l.granted && l'.received == l.received
    && l'.handed == l.handed
    && l.stream <= l'.stream
  }
}
