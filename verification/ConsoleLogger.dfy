/**
 The console logger as the firmware runs it: callbacks that move two counters,
 and a read that copies out of memory the DMA engine is still writing.
 */
module ConsoleLoggers {
  import opened Bytes
  import opened Cyclic
  import opened ConsoleRing
  import opened Errno

  newtype int32 = i: int | -0x8000_0000 <= i < 0x8000_0000

  datatype UartEvent = RxReady(len: nat) | RxDisabled | RxBufRequest | RxStopped | Other

  /** What the UART does: store a byte by DMA, or deliver an event. */
  datatype UartAction = Stores(b: byte) | Delivers(evt: UartEvent)

  function Reports(action: UartAction): nat {
    if action.Delivers? && action.evt.RxReady? then action.evt.len else 0
  }

  function Grants(action: UartAction): nat {
    if action.Delivers? && (action.evt.RxDisabled? || action.evt.RxBufRequest?) then 1 else 0
  }

  /** The data that actions report, and how many of them ask for a chunk. */
  function ReportedBy(actions: seq<UartAction>): nat {
    if actions == [] then 0 else Reports(actions[0]) + ReportedBy(actions[1..])
  }

  function GrantsIn(actions: seq<UartAction>): nat {
    if actions == [] then 0 else Grants(actions[0]) + GrantsIn(actions[1..])
  }

  /** The step an event stands for; none for events the callback ignores. */
  function EventStep(evt: UartEvent): seq<Step> {
    match evt
    case RxReady(len) => [RxRdy(len)]
    case RxDisabled => [RxStart]
    case RxBufRequest => [BufRequest]
    case RxStopped => []
    case Other => []
  }

  function StepsOf(action: UartAction): seq<Step> {
    match action
    case Stores(b) => [DmaWrite(b)]
    case Delivers(evt) => EventStep(evt)
  }

  function ActionSteps(actions: seq<UartAction>): seq<Step> {
    if actions == [] then [] else StepsOf(actions[0]) + ActionSteps(actions[1..])
  }

  lemma {:induction false} ActionCounts(actions: seq<UartAction>)
    ensures Reported(ActionSteps(actions)) == ReportedBy(actions)
    ensures Granted(ActionSteps(actions)) == GrantsIn(actions)
  {
    if actions != [] {
      ActionCounts(actions[1..]);
      var first, rest := StepsOf(actions[0]), ActionSteps(actions[1..]);
      if |first| == 1 {
        assert (first + rest)[0] == first[0] && (first + rest)[1..] == rest;
      } else {
        assert first + rest == rest;
      }
    }
  }

  /** A run whose first part is one step or none, as far as the rest is concerned. */
  lemma FirstOfRun(l: Log, first: seq<Step>, rest: seq<Step>)
    requires Inv(l) && |first| <= 1 && ValidRun(l, first + rest)
    ensures ValidRun(l, first) && ValidRun(After(l, first), rest)
    ensures After(After(l, first), rest) == After(l, first + rest)
  {
    if |first| == 1 {
      NextKeepsInv(l, first[0]);
      assert (first + rest)[0] == first[0] && (first + rest)[1..] == rest && first[1..] == [];
      assert After(l, first) == After(Next(l, first[0]), []);
    } else {
      assert first + rest == rest;
    }
  }

  /** From o to now, exactly the elements from `at` on were replaced, by s[p..q]. */
  ghost predicate Copied(o: seq<byte>, now: seq<byte>, at: nat, s: seq<byte>, p: nat, q: nat) {
    && p <= q <= |s|
    && |now| == |o| && at + q - p <= |o|
    && (forall j :: at <= j < at + q - p ==> now[j] == s[p + j - at])
    && (forall j :: 0 <= j < at || at + q - p <= j < |o| ==> now[j] == o[j])
  }

  lemma CopiedTwice(o: seq<byte>, mid: seq<byte>, now: seq<byte>, at: nat,
                    s: seq<byte>, t: seq<byte>, p: nat, q: nat, r: nat)
    requires Copied(o, mid, at, s, p, q) && Copied(mid, now, at + q - p, t, q, r)
    requires r <= |s| && s <= t
    ensures Copied(o, now, at, s, p, r)
  {
  }

  class ConsoleLogger {
    const size: nat
    const logBuffer: array<byte>
    var granted: nat
    var received: nat

    // The UART's side: the chunks it was given and all bytes it has stored.
    var handed: seq<nat>
    var stream: seq<byte>

    function View(): Log
      reads this, logBuffer
    {
      Log(size, granted, received, handed, logBuffer[..], stream)
    }

    ghost predicate Valid()
      reads this, logBuffer
    {
      Inv(View())
    }

    constructor (size: nat)
      requires Geometry(size)
      ensures Valid() && fresh(logBuffer) && this.size == size
      ensures View() == Grant(Fresh(size, logBuffer[..]))
    {
      this.size := size;
      logBuffer := new byte[size](_ => 0);
      granted, received := 0, 0;
      handed, stream := [], [];
      new;
      assert View() == Fresh(size, logBuffer[..]);
      UartRxStart();
    }

    // -- the UART driver's callbacks ------------------------------------

    method UartRxReady(len: nat)
      requires Valid() && Enabled(View(), RxRdy(len))
      modifies this
      ensures Valid() && View() == Next(old(View()), RxRdy(len))
    {
      NextKeepsInv(View(), RxRdy(len));
      received := received + len;
    }

    method UartRxAllocate()
      requires Valid() && Enabled(View(), BufRequest)
      modifies this
      ensures Valid() && View() == Next(old(View()), BufRequest)
    {
      NextKeepsInv(View(), BufRequest);
      DivModNative(granted, size);
      var off := granted % size;
      granted := granted + ChunkSize(size);
      handed := handed + [off];
    }

    method UartRxStart()
      requires Valid() && Enabled(View(), RxStart)
      modifies this
      ensures Valid() && View() == Next(old(View()), RxStart)
    {
      NextKeepsInv(View(), RxStart);
      DivModNative(granted, size);
      var off := granted % size;
      granted := granted + ChunkSize(size);
      handed := handed + [off];
    }

    method UartCallback(evt: UartEvent)
      requires Valid() && ValidRun(View(), EventStep(evt))
      modifies this
      ensures Valid() && View() == After(old(View()), EventStep(evt))
      ensures received == old(received) + (if evt.RxReady? then evt.len else 0)
      ensures granted == old(granted) + (if evt.RxDisabled? || evt.RxBufRequest? then size / 16 else 0)
    {
      match evt {
        case RxReady(len) => UartRxReady(len);
        case RxDisabled => UartRxStart();
        case RxBufRequest => UartRxAllocate();
        case RxStopped =>
        case Other =>
      }
    }

    /**
     Any sequence of events and DMA writes that the driver may make: received
     grows by what the events report, and each request for memory grants a chunk.
     */
    method UartRuns(actions: seq<UartAction>)
      requires Valid() && ValidRun(View(), ActionSteps(actions))
      modifies this, logBuffer
      ensures Valid() && View() == After(old(View()), ActionSteps(actions))
      ensures received == old(received) + ReportedBy(actions)
      ensures granted == old(granted) + Times(size / 16, GrantsIn(actions))
    {
      RunAccounts(View(), ActionSteps(actions));
      RunGrants(View(), ActionSteps(actions));
      ActionCounts(actions);
      var n := 0;
      while n < |actions|
        invariant n <= |actions| && Valid() && ValidRun(View(), ActionSteps(actions[n..]))
        invariant After(View(), ActionSteps(actions[n..])) == After(old(View()), ActionSteps(actions))
      {
        assert actions[n..][1..] == actions[n + 1..];
        UartAct(actions[n], ActionSteps(actions[n + 1..]));
        n := n + 1;
      }
    }

    method UartAct(action: UartAction, ghost rest: seq<Step>)
      requires Valid() && ValidRun(View(), StepsOf(action) + rest)
      modifies this, logBuffer
      ensures Valid() && ValidRun(View(), rest)
      ensures After(View(), rest) == After(old(View()), StepsOf(action) + rest)
    {
      FirstOfRun(View(), StepsOf(action), rest);
      match action {
        case Stores(b) => DmaStore(b);
        case Delivers(evt) => UartCallback(evt);
      }
    }

    // -- the DMA engine -------------------------------------------------

    method DmaStore(b: byte)
      requires Valid() && Enabled(View(), DmaWrite(b))
      modifies this`stream, logBuffer
      ensures Valid() && View() == Next(old(View()), DmaWrite(b))
    {
      NextKeepsInv(View(), DmaWrite(b));
      DmaSlotIsPosition(View());
      logBuffer[DmaSlot(View())] := b;
      stream := stream + [b];
    }

    /** Any number of DMA writes of any bytes, up to what the engine has been granted. */
    method DmaBurst()
      requires Valid()
      modifies this`stream, logBuffer
      ensures Valid() && DmaOnly(old(View()), View())
    {
      var more: nat := *;
      while more > 0 && |stream| < DmaLimit(View())
        invariant Valid() && DmaOnly(old(View()), View())
      {
        var b: byte := *;
        DmaStore(b);
        more := more - 1;
      }
    }

    /** Any number of callbacks and DMA writes, in any order the driver may make them. */
    method RunUart()
      requires Valid()
      modifies this, logBuffer
      ensures Valid()
      ensures old(stream) <= stream && old(received) <= received
      ensures old(Start(View())) <= Start(View())
    {
      var more: nat := *;
      while more > 0
        invariant Valid() && old(stream) <= stream && old(received) <= received
        invariant old(Start(View())) <= Start(View())
      {
        DmaBurst();
        var e: Step := *;
        if Enabled(View(), e) && !e.DmaWrite? {
          StepAccounts(View(), e);
          match e {
            case RxStart => UartRxStart();
            case BufRequest => UartRxAllocate();
            case RxRdy(len) => UartRxReady(len);
          }
        }
        more := more - 1;
      }
    }

    // -- the reader -----------------------------------------------------

    /** One byte of a memcpy out of the log; the DMA engine may run first. */
    method LoadByte(pos: nat, slot: nat) returns (b: byte)
      requires Valid() && Start(View()) <= pos < received && slot == Slot(size, pos)
      modifies this`stream, logBuffer
      ensures Valid() && DmaOnly(old(View()), View())
      ensures b == old(stream)[pos]
    {
      DmaBurst();
      WindowCovers(View());
      assert Holds(View(), pos);
      b := logBuffer[slot];
    }

    /** memcpy out of the log, with DMA between any two bytes. */
    method Memcpy(buf: array<byte>, at: nat, pos: nat, len: nat)
      requires Valid() && buf != logBuffer && at + len <= buf.Length
      requires Slot(size, pos) + len <= size
      requires Start(View()) <= pos && pos + len <= received
      modifies this`stream, logBuffer, buf
      ensures Valid() && DmaOnly(old(View()), View())
      ensures Copied(old(buf[..]), buf[..], at, old(stream), pos, pos + len)
    {
      ghost var s, b := stream, buf[..];
      var off := Slot(size, pos);
      var i := 0;
      while i < len
        invariant 0 <= i <= len
        invariant Valid() && DmaOnly(old(View()), View())
        invariant Copied(b, buf[..], at, s, pos, pos + i)
      {
        ModAdvance(pos, i, size);
        var x := LoadByte(pos + i, off + i);
        buf[at + i] := x;
        i := i + 1;
      }
    }

    /** One turn of the copy loop: up to the end of the data, of the ring or of the request. */
    method CopyRun(buf: array<byte>, copied: nat, n: nat, pos: nat) returns (l: nat)
      requires Valid() && buf != logBuffer && copied < n <= buf.Length
      requires Start(View()) <= pos <= received
      modifies this`stream, logBuffer, buf
      ensures Valid() && DmaOnly(old(View()), View())
      ensures l <= n - copied && l <= received - pos
      ensures l == 0 ==> pos == received
      ensures l == n - copied || pos + l == received || Slot(size, pos + l) == 0
      ensures Slot(size, pos) == 0 ==> l == n - copied || pos + l == received
      ensures Copied(old(buf[..]), buf[..], copied, old(stream), pos, pos + l)
    {
      WindowCovers(View());
      DivModNative(pos, size);
      var off := (pos % size) as int32;
      var len := Min(received - pos, size - off as int) as int32;
      len := Min(len as int, n - copied) as int32;
      l := len as nat;
      if l == size - off as int {
        ModEnd(pos, l, size);
      }
      if l > 0 {
        Memcpy(buf, copied, pos, l);
      }
    }

    /**
     console_log_read. The lock keeps the callbacks out but not the DMA engine,
     so the log may have grown when the read returns; what it returns is fixed
     by the state at the start. No more than two copies are ever made.
     */
    method ConsoleLogRead(buf: array<byte>, n: nat, pos0: nat)
      returns (ret: int, pos: nat, ghost copies: nat)
      requires Valid() && buf != logBuffer && n <= buf.Length
      modifies this`stream, logBuffer, buf
      ensures Valid() && DmaOnly(old(View()), View())
      ensures ret == ReadSpec(old(View()), pos0, n).ret
      ensures pos == ReadSpec(old(View()), pos0, n).pos
      ensures ret < 0 ==> buf[..] == old(buf[..])
      ensures ret >= 0 ==> Copied(old(buf[..]), buf[..], 0, old(stream), pos - ret, pos)
      ensures copies <= 2
    {
      copies := 0;
      pos := pos0;
      if pos > received {
        ret := -EINVAL;
        return;
      }
      WindowCovers(View());
      var start: nat := if received < size then 0 else granted - size;
      if start > pos {
        pos := start;
      }
      ret, copies := CopyLoop(buf, n, pos);
      pos := pos + ret;
    }

    method CopyLoop(buf: array<byte>, n: nat, p: nat) returns (copied: nat, ghost copies: nat)
      requires Valid() && buf != logBuffer && n <= buf.Length
      requires Start(View()) <= p <= received
      modifies this`stream, logBuffer, buf
      ensures Valid() && DmaOnly(old(View()), View())
      ensures copied == Min(n, received - p) && copies <= 2
      ensures Copied(old(buf[..]), buf[..], 0, old(stream), p, p + copied)
    {
      ghost var s, b := stream, buf[..];
      var pos := p;
      copied, copies := 0, 0;
      while copied < n
        invariant copied <= n && pos == p + copied <= received
        invariant Valid() && DmaOnly(old(View()), View())
        invariant Copied(b, buf[..], 0, s, p, pos)
        invariant copies <= 2
        invariant copies == 0 ==> copied == 0
        invariant copies == 1 ==> copied == n || pos == received || Slot(size, pos) == 0
        invariant copies == 2 ==> copied == n || pos == received
        decreases n - copied
      {
        ghost var mid, t := buf[..], stream;
        var len := CopyRun(buf, copied, n, pos);
        if len == 0 {
          break;
        }
        CopiedTwice(b, mid, buf[..], 0, s, t, p, pos, pos + len);
        pos := pos + len;
        copied := copied + len;
        copies := copies + 1;
      }
    }

    /** From the cursor it yields there is nothing to read until the next report. */
    method HostConsoleSeekEnd() returns (pos: nat)
      requires Valid()
      ensures pos == received
      ensures forall n: nat :: ReadSpec(View(), pos, n) == ReadResult(0, pos, [])
    {
      WindowCovers(View());
      pos := received;
    }
  }
}
