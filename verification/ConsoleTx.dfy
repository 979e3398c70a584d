/**
 The console's transmit path: any number of threads call the write routine,
 which sends its argument in chunks through one DMA buffer guarded by a binary
 semaphore that the transfer-complete interrupt gives back.

 Writers, interrupt and transmitter interleave at the granularity of single
 source statements and single bytes on the wire.
 */
module ConsoleTx {
  import opened Bytes

  const TX_BUF_SIZE: nat := 32

  /** One chunk handed to the transmitter, and the writer that handed it over. */
  datatype Chunk = Chunk(writer: nat, bytes: seq<byte>)

  /** A finished call: its argument and what it returned. */
  datatype Call = Call(data: seq<byte>, ret: int)

  /** Where a writer is in the write routine. */
  datatype Place =
    | Idle
    | Taking            // about to take the semaphore, or blocked on it
    | Taken             // holds it, buffer not loaded yet
    | Loaded(len: nat)  // has copied len bytes into the buffer
    | Refused(err: int) // the driver refused the transfer

  datatype Writer = Writer(place: Place, data: seq<byte>, copied: nat, calls: seq<Call>)

  datatype Transfer = None | Sending(len: nat, sent: nat)

  datatype State = State(sem: nat, buffer: seq<byte>, transfer: Transfer,
                         wire: seq<byte>, chunks: seq<Chunk>, writers: seq<Writer>)

  datatype Step =
    | Enter(w: nat, data: seq<byte>)
    | Take(w: nat)
    | Load(w: nat)
    | Transmit(w: nat)
    | Refuse(w: nat, err: int)
    | GiveBack(w: nat)
    | WireByte
    | TxDone

  function Init(buffer: seq<byte>, writers: nat): (s: State)
    requires |buffer| == TX_BUF_SIZE
    ensures Inv(s)
  {
    var ws := seq(writers, _ => Writer(Idle, [], 0, []));
    NoHolders(ws);
    State(1, buffer, None, [], [], ws)
  }

  predicate Enabled(s: State, e: Step) {
    match e
    case Enter(w, _) => w < |s.writers| && s.writers[w].place.Idle?
    case Take(w) => w < |s.writers| && s.writers[w].place.Taking? && s.sem > 0
    case Load(w) => w < |s.writers| && s.writers[w].place.Taken?
    case Transmit(w) => w < |s.writers| && s.writers[w].place.Loaded?
    case Refuse(w, err) => w < |s.writers| && s.writers[w].place.Loaded? && err < 0
    case GiveBack(w) => w < |s.writers| && s.writers[w].place.Refused?
    case WireByte => s.transfer.Sending? && s.transfer.sent < s.transfer.len
    case TxDone => s.transfer.Sending? && s.transfer.sent == s.transfer.len
  }

  function Return(w: Writer, ret: int): Writer {
    Writer(Idle, [], 0, w.calls + [Call(w.data, ret)])
  }

  /** The top of the loop: send on, or return the count. */
  function LoopTop(w: Writer): Writer {
    if w.copied < |w.data| then w.(place := Taking) else Return(w, w.copied)
  }

  function GiveSem(sem: nat): nat {
    Min(sem + 1, 1)
  }

  function Next(s: State, e: Step): State
    requires Inv(s) && Enabled(s, e)
  {
    match e
    case Enter(w, data) =>
      s.(writers := s.writers[w := LoopTop(s.writers[w].(data := data, copied := 0))])
    case Take(w) =>
      s.(sem := s.sem - 1, writers := s.writers[w := s.writers[w].(place := Taken)])
    case Load(w) =>
      assert WriterInv(s, w);
      var x := s.writers[w];
      var len := Min(|x.data| - x.copied, TX_BUF_SIZE);
      s.(buffer := x.data[x.copied..x.copied + len] + s.buffer[len..],
         writers := s.writers[w := x.(place := Loaded(len))])
    case Transmit(w) =>
      assert WriterInv(s, w);
      var x := s.writers[w];
      s.(transfer := Sending(x.place.len, 0),
         chunks := s.chunks + [Chunk(w, s.buffer[..x.place.len])],
         writers := s.writers[w := LoopTop(x.(copied := x.copied + x.place.len))])
    case Refuse(w, err) =>
      s.(writers := s.writers[w := s.writers[w].(place := Refused(err))])
    case GiveBack(w) =>
      var x := s.writers[w];
      s.(sem := GiveSem(s.sem),
         writers := s.writers[w := Return(x, if x.copied > 0 then x.copied else x.place.err)])
    case WireByte =>
      s.(wire := s.wire + [s.buffer[s.transfer.sent]],
         transfer := Sending(s.transfer.len, s.transfer.sent + 1))
    case TxDone =>
      s.(transfer := None, sem := GiveSem(s.sem))
  }

  // ---------------------------------------------------------------------
  // Accounts
  // ---------------------------------------------------------------------

  predicate Holds(w: Writer) {
    w.place.Taken? || w.place.Loaded? || w.place.Refused?
  }

  function Holders(ws: seq<Writer>): nat {
    if ws == [] then 0 else (if Holds(ws[0]) then 1 else 0) + Holders(ws[1..])
  }

  function InFlight(t: Transfer): nat {
    if t.Sending? then 1 else 0
  }

  function ChunkBytes(chunks: seq<Chunk>): seq<byte> {
    if chunks == [] then [] else ChunkBytes(chunks[..|chunks| - 1]) + chunks[|chunks| - 1].bytes
  }

  /** The chunks of one writer, in the order they were handed over. */
  function Of(chunks: seq<Chunk>, w: nat): seq<Chunk> {
    if chunks == [] then []
    else
      var last := chunks[|chunks| - 1];
      Of(chunks[..|chunks| - 1], w) + (if last.writer == w then [last] else [])
  }

  /** What finished calls say was sent: of each argument the prefix its return value counts. */
  function Counted(calls: seq<Call>): seq<byte> {
    if calls == [] then []
    else
      var c := calls[|calls| - 1];
      Counted(calls[..|calls| - 1]) + (if 0 <= c.ret <= |c.data| then c.data[..c.ret] else [])
  }

  ghost predicate WriterInv(s: State, w: nat)
    requires w < |s.writers|
  {
    var x := s.writers[w];
    && x.copied <= |x.data|
    && (x.place.Idle? ==> x.data == [] && x.copied == 0)
    && (!x.place.Idle? ==> x.copied < |x.data|)
    && (x.place.Loaded? ==>
          && 0 < x.place.len <= TX_BUF_SIZE && x.copied + x.place.len <= |x.data|
          && (x.place.len == TX_BUF_SIZE || x.copied + x.place.len == |x.data|)
          && x.place.len <= |s.buffer|
          && s.buffer[..x.place.len] == x.data[x.copied..x.copied + x.place.len])
    && (x.place.Refused? ==> x.place.err < 0)
    && (forall k :: 0 <= k < |x.calls| ==> x.calls[k].ret <= |x.calls[k].data|)
    && ChunkBytes(Of(s.chunks, w)) == Counted(x.calls) + x.data[..x.copied]
  }

  /** While a transfer runs, the buffer still holds the chunk it was started with. */
  ghost predicate TransferInv(s: State) {
    match s.transfer
    case None => s.wire == ChunkBytes(s.chunks)
    case Sending(len, sent) =>
      && s.chunks != []
      && var last := s.chunks[|s.chunks| - 1].bytes;
      && sent <= len == |last| <= |s.buffer|
      && s.buffer[..len] == last
      && s.wire == ChunkBytes(s.chunks[..|s.chunks| - 1]) + last[..sent]
  }

  ghost predicate Inv(s: State) {
    && |s.buffer| == TX_BUF_SIZE
    && s.sem + Holders(s.writers) + InFlight(s.transfer) == 1
    && (forall k :: 0 <= k < |s.chunks| ==> s.chunks[k].writer < |s.writers| && 0 < |s.chunks[k].bytes| <= TX_BUF_SIZE)
    && TransferInv(s)
    && (forall w :: 0 <= w < |s.writers| ==> WriterInv(s, w))
  }

  // ---------------------------------------------------------------------
  // Every step keeps them
  // ---------------------------------------------------------------------

  lemma {:induction false} HoldersUpdate(ws: seq<Writer>, w: nat, x: Writer)
    requires w < |ws|
    ensures Holders(ws[w := x]) ==
            Holders(ws) - (if Holds(ws[w]) then 1 else 0) + (if Holds(x) then 1 else 0)
  {
    if w > 0 {
      assert ws[w := x][1..] == ws[1..][w - 1 := x];
      HoldersUpdate(ws[1..], w - 1, x);
    } else {
      assert ws[w := x][1..] == ws[1..];
    }
  }

  lemma {:induction false} HoldersCount(ws: seq<Writer>, w: nat)
    requires w < |ws| && Holds(ws[w])
    ensures Holders(ws) >= 1
    ensures forall v :: 0 <= v < |ws| && v != w && Holds(ws[v]) ==> Holders(ws) >= 2
  {
    var x := Writer(Idle, [], 0, []);
    HoldersUpdate(ws, w, x);
    forall v | 0 <= v < |ws| && v != w && Holds(ws[v]) ensures Holders(ws) >= 2 {
      HoldersUpdate(ws[w := x], v, x);
    }
  }

  /** Whoever is between taking the semaphore and starting a transfer is alone with the buffer. */
  lemma HolderIsAlone(s: State, w: nat)
    requires Inv(s) && w < |s.writers| && Holds(s.writers[w])
    ensures s.sem == 0 && s.transfer.None?
    ensures forall v :: 0 <= v < |s.writers| && v != w ==> !Holds(s.writers[v])
  {
    HoldersCount(s.writers, w);
  }

  lemma ChunkAdded(chunks: seq<Chunk>, c: Chunk, w: nat)
    ensures ChunkBytes(chunks + [c]) == ChunkBytes(chunks) + c.bytes
    ensures Of(chunks + [c], w) == if c.writer == w then Of(chunks, w) + [c] else Of(chunks, w)
  {
    assert (chunks + [c])[..|chunks|] == chunks;
  }

  lemma CallAdded(calls: seq<Call>, c: Call)
    ensures Counted(calls + [c]) ==
            Counted(calls) + (if 0 <= c.ret <= |c.data| then c.data[..c.ret] else [])
  {
    assert (calls + [c])[..|calls|] == calls;
  }

  lemma EnterKeepsInv(s: State, w: nat, data: seq<byte>)
    requires Inv(s) && Enabled(s, Enter(w, data))
    ensures Inv(Next(s, Enter(w, data)))
  {
    var s' := Next(s, Enter(w, data));
    HoldersUpdate(s.writers, w, s'.writers[w]);
    forall v | 0 <= v < |s'.writers| ensures WriterInv(s', v) {
      assert WriterInv(s, v);
      if v == w {
        CallAdded(s.writers[w].calls, Call(data, 0));
      }
    }
  }

  lemma TakeKeepsInv(s: State, w: nat)
    requires Inv(s) && Enabled(s, Take(w))
    ensures Inv(Next(s, Take(w)))
  {
    var s' := Next(s, Take(w));
    HoldersUpdate(s.writers, w, s'.writers[w]);
    forall v | 0 <= v < |s'.writers| ensures WriterInv(s', v) {
      assert WriterInv(s, v);
    }
  }

  lemma LoadKeepsInv(s: State, w: nat)
    requires Inv(s) && Enabled(s, Load(w))
    ensures Inv(Next(s, Load(w)))
  {
    var s' := Next(s, Load(w));
    HolderIsAlone(s, w);
    HoldersUpdate(s.writers, w, s'.writers[w]);
    forall v | 0 <= v < |s'.writers| ensures WriterInv(s', v) {
      assert WriterInv(s, v);
    }
  }

  lemma TransmitLeavesOthers(s: State, w: nat, v: nat)
    requires Inv(s) && Enabled(s, Transmit(w)) && v < |s.writers| && v != w
    ensures WriterInv(Next(s, Transmit(w)), v)
  {
    assert WriterInv(s, w) && WriterInv(s, v);
    ChunkAdded(s.chunks, Chunk(w, s.buffer[..s.writers[w].place.len]), v);
    HolderIsAlone(s, w);
  }

  lemma ChunkOfWriterAdded(chunks: seq<Chunk>, c: Chunk)
    ensures ChunkBytes(Of(chunks + [c], c.writer)) == ChunkBytes(Of(chunks, c.writer)) + c.bytes
  {
    ChunkAdded(chunks, c, c.writer);
    ChunkAdded(Of(chunks, c.writer), c, c.writer);
  }

  /** The chunks of the transmitting writer grow by what its account grows by. */
  lemma TransmitAccounts(s: State, w: nat)
    requires Inv(s) && Enabled(s, Transmit(w))
    ensures var x := Next(s, Transmit(w)).writers[w];
      ChunkBytes(Of(Next(s, Transmit(w)).chunks, w)) == Counted(x.calls) + x.data[..x.copied]
  {
    assert WriterInv(s, w);
    var x := s.writers[w];
    var c := Chunk(w, s.buffer[..x.place.len]);
    var y := LoopTop(x.(copied := x.copied + |c.bytes|));
    assert Next(s, Transmit(w)).writers[w] == y && Next(s, Transmit(w)).chunks == s.chunks + [c];
    assert c.bytes == x.data[x.copied..x.copied + |c.bytes|];
    ChunkOfWriterAdded(s.chunks, c);
    SentOn(x, s.chunks, c);
  }

  /** The loop top leaves a writer that is idle or about to take the semaphore. */
  lemma LoopTopShape(x: Writer)
    requires x.copied <= |x.data|
    requires forall k :: 0 <= k < |x.calls| ==> x.calls[k].ret <= |x.calls[k].data|
    ensures var y := LoopTop(x);
      && y.copied <= |y.data|
      && (y.place.Idle? && x.copied == |x.data| ==> y.data == [] && y.copied == 0)
      && (x.copied < |x.data| ==> y == x.(place := Taking))
      && (x.copied == |x.data| ==> y.place.Idle?)
      && (forall k :: 0 <= k < |y.calls| ==> y.calls[k].ret <= |y.calls[k].data|)
  {
  }

  lemma TransmitKeepsOwn(s: State, w: nat)
    requires Inv(s) && Enabled(s, Transmit(w))
    ensures WriterInv(Next(s, Transmit(w)), w)
  {
    assert WriterInv(s, w);
    var x := s.writers[w];
    TransmitAccounts(s, w);
    LoopTopShape(x.(copied := x.copied + x.place.len));
  }

  lemma TransmitKeepsWriter(s: State, w: nat, v: nat)
    requires Inv(s) && Enabled(s, Transmit(w)) && v < |s.writers|
    ensures WriterInv(Next(s, Transmit(w)), v)
  {
    if v == w {
      TransmitKeepsOwn(s, w);
    } else {
      TransmitLeavesOthers(s, w, v);
    }
  }

  lemma TransmitStartsTransfer(s: State, w: nat)
    requires Inv(s) && Enabled(s, Transmit(w))
    ensures TransferInv(Next(s, Transmit(w)))
  {
    assert WriterInv(s, w);
    HolderIsAlone(s, w);
    assert Next(s, Transmit(w)).chunks[..|s.chunks|] == s.chunks;
  }

  lemma TransmitPassesToken(s: State, w: nat)
    requires Inv(s) && Enabled(s, Transmit(w))
    ensures var s' := Next(s, Transmit(w));
      s'.sem + Holders(s'.writers) + InFlight(s'.transfer) == 1
  {
    var s' := Next(s, Transmit(w));
    HolderIsAlone(s, w);
    HoldersUpdate(s.writers, w, s'.writers[w]);
  }

  lemma TransmitKeepsInv(s: State, w: nat)
    requires Inv(s) && Enabled(s, Transmit(w))
    ensures Inv(Next(s, Transmit(w)))
  {
    TransmitStartsTransfer(s, w);
    TransmitPassesToken(s, w);
    var s' := Next(s, Transmit(w));
    assert WriterInv(s, w);
    forall v | 0 <= v < |s'.writers| ensures WriterInv(s', v) {
      TransmitKeepsWriter(s, w, v);
    }
  }

  /** The loop top after a chunk was handed over keeps the writer's account. */
  lemma SentOn(x: Writer, chunks: seq<Chunk>, c: Chunk)
    requires x.copied + |c.bytes| <= |x.data|
    requires c.bytes == x.data[x.copied..x.copied + |c.bytes|]
    ensures var y := LoopTop(x.(copied := x.copied + |c.bytes|));
      Counted(y.calls) + y.data[..y.copied] == (Counted(x.calls) + x.data[..x.copied]) + c.bytes
  {
    var n := x.copied + |c.bytes|;
    assert x.data[..n] == x.data[..x.copied] + c.bytes;
    CallAdded(x.calls, Call(x.data, n));
  }

  lemma RefuseKeepsInv(s: State, w: nat, err: int)
    requires Inv(s) && Enabled(s, Refuse(w, err))
    ensures Inv(Next(s, Refuse(w, err)))
  {
    var s' := Next(s, Refuse(w, err));
    HoldersUpdate(s.writers, w, s'.writers[w]);
    forall v | 0 <= v < |s'.writers| ensures WriterInv(s', v) {
      assert WriterInv(s, v);
    }
  }

  lemma GiveBackKeepsInv(s: State, w: nat)
    requires Inv(s) && Enabled(s, GiveBack(w))
    ensures Inv(Next(s, GiveBack(w)))
  {
    var s', x := Next(s, GiveBack(w)), s.writers[w];
    HolderIsAlone(s, w);
    HoldersUpdate(s.writers, w, s'.writers[w]);
    forall v | 0 <= v < |s'.writers| ensures WriterInv(s', v) {
      assert WriterInv(s, v);
      if v == w {
        CallAdded(x.calls, s'.writers[w].calls[|x.calls|]);
      }
    }
  }

  lemma HardwareKeepsInv(s: State, e: Step)
    requires Inv(s) && Enabled(s, e) && (e.WireByte? || e.TxDone?)
    ensures Inv(Next(s, e))
  {
    var s' := Next(s, e);
    var last := s.chunks[|s.chunks| - 1].bytes;
    forall v | 0 <= v < |s'.writers| ensures WriterInv(s', v) {
      assert WriterInv(s, v);
    }
    if e.WireByte? {
      assert last[..s.transfer.sent + 1] == last[..s.transfer.sent] + [last[s.transfer.sent]];
    } else {
      assert last[..|last|] == last;
    }
  }

  lemma NextKeepsInv(s: State, e: Step)
    requires Inv(s) && Enabled(s, e)
    ensures Inv(Next(s, e))
  {
    match e
    case Enter(w, data) => EnterKeepsInv(s, w, data);
    case Take(w) => TakeKeepsInv(s, w);
    case Load(w) => LoadKeepsInv(s, w);
    case Transmit(w) => TransmitKeepsInv(s, w);
    case Refuse(w, err) => RefuseKeepsInv(s, w, err);
    case GiveBack(w) => GiveBackKeepsInv(s, w);
    case WireByte => HardwareKeepsInv(s, e);
    case TxDone => HardwareKeepsInv(s, e);
  }

  // ---------------------------------------------------------------------
  // Theorems about runs
  // ---------------------------------------------------------------------

  lemma {:induction false} NoHolders(ws: seq<Writer>)
    requires forall w :: 0 <= w < |ws| ==> !Holds(ws[w])
    ensures Holders(ws) == 0
  {
    if ws != [] {
      NoHolders(ws[1..]);
    }
  }

  ghost predicate ValidRun(s: State, run: seq<Step>)
    requires Inv(s)
    decreases run
  {
    run != [] ==>
      && Enabled(s, run[0])
      && (NextKeepsInv(s, run[0]);
          ValidRun(Next(s, run[0]), run[1..]))
  }

  ghost function After(s: State, run: seq<Step>): (s': State)
    requires Inv(s) && ValidRun(s, run)
    ensures Inv(s')
    decreases run
  {
    if run == [] then s
    else
      NextKeepsInv(s, run[0]);
      After(Next(s, run[0]), run[1..])
  }

  function Recorded(calls: seq<Call>): seq<seq<byte>> {
    if calls == [] then [] else Recorded(calls[..|calls| - 1]) + [calls[|calls| - 1].data]
  }

  /** The arguments of a writer's calls, in order, and of the call it is in. */
  function Arguments(x: Writer): seq<seq<byte>> {
    Recorded(x.calls) + (if x.place.Idle? then [] else [x.data])
  }

  lemma ReturnArguments(x: Writer, ret: int)
    ensures Arguments(Return(x, ret)) == Recorded(x.calls) + [x.data]
    ensures Arguments(LoopTop(x.(place := Taking))) == Recorded(x.calls) + [x.data]
  {
    assert (x.calls + [Call(x.data, ret)])[..|x.calls|] == x.calls;
    assert (x.calls + [Call(x.data, x.copied)])[..|x.calls|] == x.calls;
  }

  function EnteredBy(e: Step, w: nat): seq<seq<byte>> {
    if e.Enter? && e.w == w then [e.data] else []
  }

  /** What a run has a writer call the write routine with. */
  function Entered(run: seq<Step>, w: nat): seq<seq<byte>> {
    if run == [] then [] else EnteredBy(run[0], w) + Entered(run[1..], w)
  }

  lemma OwnStepArguments(s: State, e: Step, w: nat)
    requires Inv(s) && Enabled(s, e) && w < |s.writers| && Own(e, w)
    ensures |Next(s, e).writers| == |s.writers|
    ensures Arguments(Next(s, e).writers[w]) == Arguments(s.writers[w]) + EnteredBy(e, w)
  {
    assert WriterInv(s, w);
    var x := s.writers[w];
    match e
    case Enter(_, data) =>
      var y := x.(data := data, copied := 0);
      ReturnArguments(y, 0);
      assert LoopTop(y) == LoopTop(y.(place := Taking));
    case Take(_) =>
    case Load(_) =>
    case Transmit(_) =>
      var y := x.(copied := x.copied + x.place.len);
      ReturnArguments(y, 0);
      assert LoopTop(y) == LoopTop(y.(place := Taking));
    case Refuse(_, _) =>
    case GiveBack(_) => ReturnArguments(x, if x.copied > 0 then x.copied else x.place.err);
  }

  lemma StepArguments(s: State, e: Step, w: nat)
    requires Inv(s) && Enabled(s, e) && w < |s.writers|
    ensures |Next(s, e).writers| == |s.writers|
    ensures Arguments(Next(s, e).writers[w]) == Arguments(s.writers[w]) + EnteredBy(e, w)
  {
    if Own(e, w) {
      OwnStepArguments(s, e, w);
    } else {
      OthersLeaveWriter(s, e, w);
    }
  }

  lemma {:induction false} WritersStay(s: State, run: seq<Step>)
    requires Inv(s) && ValidRun(s, run)
    ensures |After(s, run).writers| == |s.writers|
    decreases run
  {
    if run != [] {
      NextKeepsInv(s, run[0]);
      WritersStay(Next(s, run[0]), run[1..]);
    }
  }

  lemma {:induction false} RunArguments(s: State, run: seq<Step>, w: nat)
    requires Inv(s) && ValidRun(s, run) && w < |s.writers|
    ensures w < |After(s, run).writers|
    ensures Arguments(After(s, run).writers[w]) == Arguments(s.writers[w]) + Entered(run, w)
    decreases run
  {
    if run != [] {
      NextKeepsInv(s, run[0]);
      StepArguments(s, run[0], w);
      RunArguments(Next(s, run[0]), run[1..], w);
      Associate(Arguments(s.writers[w]), EnteredBy(run[0], w), Entered(run[1..], w));
    }
  }

  /** The calls on record are those that the run had the writer make. */
  lemma CallsAreEntered(buffer: seq<byte>, writers: nat, run: seq<Step>, w: nat)
    requires |buffer| == TX_BUF_SIZE && w < writers
    requires ValidRun(Init(buffer, writers), run)
    ensures w < |After(Init(buffer, writers), run).writers|
    ensures Arguments(After(Init(buffer, writers), run).writers[w]) == Entered(run, w)
  {
    RunArguments(Init(buffer, writers), run, w);
    assert Arguments(Init(buffer, writers).writers[w]) == [];
  }

  /**
   In every interleaving of any number of writers with the transmitter: the
   semaphore, its holders and the transfer in flight add up to one; what is on
   the wire is the chunks in the order they were handed over, up to the byte
   being sent; each writer's calls are, in order, those the run had it make; and
   its own chunks are, in order, exactly the bytes those calls' return values
   count plus what its current call has sent so far.
   */
  lemma WireIsShuffleOfCalls(buffer: seq<byte>, writers: nat, run: seq<Step>)
    requires |buffer| == TX_BUF_SIZE
    requires ValidRun(Init(buffer, writers), run)
    ensures var s := After(Init(buffer, writers), run);
      && s.sem + Holders(s.writers) + InFlight(s.transfer) == 1
      && s.wire <= ChunkBytes(s.chunks)
      && (s.transfer.None? ==> s.wire == ChunkBytes(s.chunks))
      && (forall k :: 0 <= k < |s.chunks| ==> 0 < |s.chunks[k].bytes| <= 32)
      && |s.writers| == writers
      && (forall w :: 0 <= w < |s.writers| ==>
            var x := s.writers[w];
            && Arguments(x) == Entered(run, w)
            && x.copied <= |x.data|
            && ChunkBytes(Of(s.chunks, w)) == Counted(x.calls) + x.data[..x.copied])
  {
    var s := After(Init(buffer, writers), run);
    WritersStay(Init(buffer, writers), run);
    forall w | 0 <= w < |s.writers|
      ensures var x := s.writers[w];
        && Arguments(x) == Entered(run, w)
        && x.copied <= |x.data|
        && ChunkBytes(Of(s.chunks, w)) == Counted(x.calls) + x.data[..x.copied]
    {
      assert WriterInv(s, w);
      CallsAreEntered(buffer, writers, run, w);
    }
    if s.transfer.Sending? {
      var k := |s.chunks| - 1;
      assert s.chunks == s.chunks[..k] + [s.chunks[k]];
      ChunkAdded(s.chunks[..k], s.chunks[k], 0);
    }
  }

  // ---------------------------------------------------------------------
  // When a call is short
  // ---------------------------------------------------------------------

  function RefusedBy(e: Step, w: nat): seq<int> {
    if e.Refuse? && e.w == w then [e.err] else []
  }

  /** The driver's refusals of a writer's transfers in a run. */
  function Refusals(run: seq<Step>, w: nat): seq<int> {
    if run == [] then [] else RefusedBy(run[0], w) + Refusals(run[1..], w)
  }

  /**
   The short calls and the refusals match one to one, in order: a call that was
   not refused returned the whole of its argument's length, and one that was
   refused returned what it had sent or, if nothing, the driver's error.
   */
  predicate Matched(calls: seq<Call>, errs: seq<int>)
    decreases |calls|
  {
    if calls == [] then errs == []
    else
      var c, front := calls[|calls| - 1], calls[..|calls| - 1];
      if c.ret == |c.data| then Matched(front, errs)
      else
        && errs != []
        && (0 < c.ret < |c.data| || c.ret == errs[|errs| - 1])
        && Matched(front, errs[..|errs| - 1])
  }

  /** As Matched, for a writer whose current call may have been refused. */
  predicate Explained(x: Writer, errs: seq<int>) {
    if x.place.Refused?
    then errs != [] && errs[|errs| - 1] == x.place.err && Matched(x.calls, errs[..|errs| - 1])
    else Matched(x.calls, errs)
  }

  lemma MatchedSnoc(calls: seq<Call>, c: Call, errs: seq<int>)
    ensures c.ret == |c.data| ==> Matched(calls + [c], errs) == Matched(calls, errs)
    ensures forall err :: (0 < c.ret < |c.data| || (c.ret == err && c.ret != |c.data|)) && Matched(calls, errs)
              ==> Matched(calls + [c], errs + [err])
  {
    assert (calls + [c])[..|calls|] == calls;
    forall err ensures (errs + [err])[..|errs|] == errs {
    }
  }

  lemma LoopTopExplained(x: Writer, errs: seq<int>)
    requires x.copied <= |x.data| && Matched(x.calls, errs)
    ensures Explained(LoopTop(x), errs)
  {
    MatchedSnoc(x.calls, Call(x.data, x.copied), errs);
  }

  lemma GiveBackExplained(x: Writer, errs: seq<int>)
    requires x.place.Refused? && x.place.err < 0 && x.copied < |x.data| && Explained(x, errs)
    ensures Explained(Return(x, if x.copied > 0 then x.copied else x.place.err), errs)
  {
    var front := errs[..|errs| - 1];
    MatchedSnoc(x.calls, Call(x.data, if x.copied > 0 then x.copied else x.place.err), front);
    assert front + [x.place.err] == errs;
  }

  lemma OwnStepExplained(s: State, e: Step, w: nat, errs: seq<int>)
    requires Inv(s) && Enabled(s, e) && w < |s.writers| && Own(e, w) && Explained(s.writers[w], errs)
    ensures |Next(s, e).writers| == |s.writers|
    ensures Explained(Next(s, e).writers[w], errs + RefusedBy(e, w))
  {
    assert WriterInv(s, w);
    var x := s.writers[w];
    assert errs + [] == errs;
    match e
    case Enter(_, data) => LoopTopExplained(x.(data := data, copied := 0), errs);
    case Take(_) =>
    case Load(_) =>
    case Transmit(_) => LoopTopExplained(x.(copied := x.copied + x.place.len), errs);
    case Refuse(_, err) => assert (errs + [err])[..|errs|] == errs;
    case GiveBack(_) => GiveBackExplained(x, errs);
  }

  lemma StepExplained(s: State, e: Step, w: nat, errs: seq<int>)
    requires Inv(s) && Enabled(s, e) && w < |s.writers| && Explained(s.writers[w], errs)
    ensures |Next(s, e).writers| == |s.writers|
    ensures Explained(Next(s, e).writers[w], errs + RefusedBy(e, w))
  {
    if Own(e, w) {
      OwnStepExplained(s, e, w, errs);
    } else {
      OthersLeaveWriter(s, e, w);
      assert errs + [] == errs;
    }
  }

  lemma {:induction false} RunExplained(s: State, run: seq<Step>, w: nat, errs: seq<int>)
    requires Inv(s) && ValidRun(s, run) && w < |s.writers| && Explained(s.writers[w], errs)
    ensures w < |After(s, run).writers|
    ensures Explained(After(s, run).writers[w], errs + Refusals(run, w))
    decreases run
  {
    if run != [] {
      NextKeepsInv(s, run[0]);
      StepExplained(s, run[0], w, errs);
      RunExplained(Next(s, run[0]), run[1..], w, errs + RefusedBy(run[0], w));
      Associate(errs, RefusedBy(run[0], w), Refusals(run[1..], w));
    } else {
      assert errs + [] == errs;
    }
  }

  lemma {:induction false} UnrefusedIsWhole(calls: seq<Call>)
    requires Matched(calls, [])
    ensures forall k :: 0 <= k < |calls| ==> calls[k].ret == |calls[k].data|
    decreases |calls|
  {
    if calls != [] {
      UnrefusedIsWhole(calls[..|calls| - 1]);
    }
  }

  /**
   In every run the short calls of a writer and the driver's refusals of its
   transfers match one to one. A writer that is never refused has every
   argument sent whole.
   */
  lemma CallsAreWholeUnlessRefused(buffer: seq<byte>, writers: nat, run: seq<Step>, w: nat)
    requires |buffer| == TX_BUF_SIZE && w < writers
    requires ValidRun(Init(buffer, writers), run)
    ensures var s := After(Init(buffer, writers), run);
      && w < |s.writers|
      && Explained(s.writers[w], Refusals(run, w))
      && (Refusals(run, w) == [] ==>
            forall k :: 0 <= k < |s.writers[w].calls| ==> s.writers[w].calls[k].ret == |s.writers[w].calls[k].data|)
  {
    RunExplained(Init(buffer, writers), run, w, []);
    assert [] + Refusals(run, w) == Refusals(run, w);
    var x := After(Init(buffer, writers), run).writers[w];
    if Refusals(run, w) == [] {
      UnrefusedIsWhole(x.calls);
    }
  }

  /** Each chunk handed over fills the buffer or ends its call's argument. */
  lemma ChunksAreFull(s: State, w: nat)
    requires Inv(s) && Enabled(s, Transmit(w))
    ensures var s', x := Next(s, Transmit(w)), s.writers[w];
      && |s'.chunks| == |s.chunks| + 1
      && var c := s'.chunks[|s.chunks|];
      && c.writer == w && x.copied + |c.bytes| <= |x.data|
      && c.bytes == x.data[x.copied..x.copied + |c.bytes|]
      && (|c.bytes| == 32 || x.copied + |c.bytes| == |x.data|)
  {
    assert WriterInv(s, w);
  }

  /** No step of a writer touches the buffer while a transfer is reading it. */
  lemma BufferStableInFlight(s: State, e: Step)
    requires Inv(s) && Enabled(s, e) && s.transfer.Sending?
    ensures Next(s, e).buffer == s.buffer
    ensures !e.Transmit?
  {
    if e.Load? {
      HolderIsAlone(s, e.w);
    } else if e.Transmit? {
      HolderIsAlone(s, e.w);
    }
  }

  // ---------------------------------------------------------------------
  // The write routine itself
  // ---------------------------------------------------------------------

  /** Whether a step is one of the given writer's own statements. */
  predicate Own(e: Step, me: nat) {
    match e
    case Enter(w, _) => w == me
    case Take(w) => w == me
    case Load(w) => w == me
    case Transmit(w) => w == me
    case Refuse(w, _) => w == me
    case GiveBack(w) => w == me
    case WireByte => false
    case TxDone => false
  }

  lemma OthersLeaveWriter(s: State, e: Step, me: nat)
    requires Inv(s) && Enabled(s, e) && !Own(e, me) && me < |s.writers|
    ensures |Next(s, e).writers| == |s.writers|
    ensures Next(s, e).writers[me] == s.writers[me]
  {
  }

  /**
   What a call on n bytes returns: all of them if the driver refuses none of its
   chunks; else, for the first chunk refused, the bytes before it, or the
   driver's error if there are none.
   */
  ghost predicate ReturnsUntilRefused(n: nat, driver: nat -> int, ret: int) {
    || (ret == n && forall k: nat :: 32 * k < n ==> driver(k) >= 0)
    || (exists k: nat ::
          && 32 * k < n && driver(k) < 0 && (forall j: nat :: j < k ==> driver(j) >= 0)
          && ret == if k == 0 then driver(0) else 32 * k)
  }

  lemma NoneRefused(n: nat, driver: nat -> int, chunks: nat)
    requires n <= 32 * chunks && forall k: nat :: k < chunks ==> driver(k) >= 0
    ensures ReturnsUntilRefused(n, driver, n)
  {
  }

  lemma FirstRefused(n: nat, driver: nat -> int, k: nat)
    requires 32 * k < n && driver(k) < 0 && forall j: nat :: j < k ==> driver(j) >= 0
    ensures ReturnsUntilRefused(n, driver, if k == 0 then driver(0) else 32 * k)
  {
  }

  class Transmitter {
    var sem: nat
    const txBuffer: array<byte>

    // The transmitter's progress, and where every writer is.
    var transfer: Transfer
    var wire: seq<byte>
    var chunks: seq<Chunk>
    var writers: seq<Writer>

    function View(): State
      reads this, txBuffer
    {
      State(sem, txBuffer[..], transfer, wire, chunks, writers)
    }

    ghost predicate Valid()
      reads this, txBuffer
    {
      Inv(View())
    }

    constructor (n: nat)
      ensures Valid() && fresh(txBuffer) && View() == Init(txBuffer[..], n)
    {
      txBuffer := new byte[TX_BUF_SIZE](_ => 0);
      sem := 1;
      transfer, wire, chunks := None, [], [];
      writers := seq(n, _ => Writer(Idle, [], 0, []));
      new;
      assert View() == Init(txBuffer[..], n);
    }

    method Perform(e: Step)
      requires Valid() && Enabled(View(), e)
      modifies this, txBuffer
      ensures Valid() && View() == Next(old(View()), e)
    {
      NextKeepsInv(View(), e);
      var s := Next(View(), e);
      sem, transfer, wire, chunks, writers := s.sem, s.transfer, s.wire, s.chunks, s.writers;
      forall i | 0 <= i < txBuffer.Length {
        txBuffer[i] := s.buffer[i];
      }
      assert txBuffer[..] == s.buffer;
    }

    /** Any number of steps of the other writers and of the transmitter. */
    method Others(me: nat)
      requires Valid() && me < |writers|
      modifies this, txBuffer
      ensures Valid() && |writers| == old(|writers|) && writers[me] == old(writers[me])
    {
      var more: nat := *;
      while more > 0
        invariant Valid() && |writers| == old(|writers|) && writers[me] == old(writers[me])
      {
        var e: Step := *;
        if Enabled(View(), e) && !Own(e, me) {
          OthersLeaveWriter(View(), e, me);
          Perform(e);
        }
        more := more - 1;
      }
    }

    /** Take the semaphore and copy the next chunk into the buffer. */
    method LoadChunk(me: nat)
      requires Valid() && me < |writers| && writers[me].place.Taking? && sem > 0
      modifies this, txBuffer
      ensures Valid() && |writers| == old(|writers|) && writers[me].place.Loaded?
      ensures writers[me].place.len == Min(|writers[me].data| - writers[me].copied, TX_BUF_SIZE)
      ensures writers[me] == old(writers[me]).(place := writers[me].place)
    {
      Perform(Take(me));
      Others(me);
      Perform(Load(me));
    }

    /** Load and start one chunk; rc is what the driver answers. */
    method SendChunk(me: nat, rc: int)
      requires Valid() && me < |writers| && writers[me].place.Taking? && sem > 0
      modifies this, txBuffer
      ensures Valid() && |writers| == old(|writers|)
      ensures var x := old(writers[me]);
        var len := Min(|x.data| - x.copied, TX_BUF_SIZE);
        writers[me] == if rc >= 0 then LoopTop(x.(copied := x.copied + len))
                       else x.(place := Refused(rc))
    {
      assert WriterInv(View(), me);
      LoadChunk(me);
      Others(me);
      if rc < 0 {
        Perform(Refuse(me, rc));
      } else {
        Perform(Transmit(me));
      }
    }

    /** One turn of the loop: wait for the semaphore, send, and give it back if refused. */
    method WriteTurn(me: nat, rc: int) returns (blocked: bool)
      requires Valid() && me < |writers| && writers[me].place.Taking?
      modifies this, txBuffer
      ensures Valid() && |writers| == old(|writers|)
      ensures blocked ==> sem == 0 && writers[me] == old(writers[me])
      ensures !blocked ==>
        var x := old(writers[me]);
        var len := Min(|x.data| - x.copied, TX_BUF_SIZE);
        writers[me] == if rc >= 0 then LoopTop(x.(copied := x.copied + len))
                       else Return(x, if x.copied > 0 then x.copied else rc)
    {
      assert WriterInv(View(), me);
      Others(me);
      blocked := sem == 0;
      if !blocked {
        SendChunk(me, rc);
        if rc < 0 {
          Others(me);
          Perform(GiveBack(me));
        }
      }
    }

    /**
     console_log_write by writer `me`, against arbitrary other writers. It may
     still be blocked on the semaphore when observation ends; otherwise its
     return value is on record as this call's result, and by Valid() the wire
     has been given exactly the prefix of `buf` that the value counts. `driver`
     is what the driver answers for each chunk of the call.
     */
    method ConsoleLogWrite(me: nat, buf: seq<byte>, driver: nat -> int) returns (ret: int, blocked: bool)
      requires Valid() && me < |writers| && writers[me].place.Idle?
      modifies this, txBuffer
      ensures Valid() && |writers| == old(|writers|)
      ensures !blocked ==> writers[me] == Return(Writer(Idle, buf, 0, old(writers[me].calls)), ret)
      ensures blocked ==> writers[me].place.Taking? && writers[me].data == buf
      ensures blocked ==> sem == 0
      ensures !blocked ==> ReturnsUntilRefused(|buf|, driver, ret)
    {
      ghost var calls := writers[me].calls;
      assert WriterInv(View(), me);
      Perform(Enter(me, buf));
      blocked := false;
      var copied, chunk := 0, 0;
      while copied < |buf|
        invariant copied <= |buf| && Valid() && |writers| == old(|writers|)
        invariant writers[me] == LoopTop(Writer(writers[me].place, buf, copied, calls))
        invariant 0 <= chunk && copied == Min(|buf|, 32 * chunk)
        invariant forall k: nat :: k < chunk ==> driver(k) >= 0
      {
        var len, rc := Min(|buf| - copied, TX_BUF_SIZE), driver(chunk);
        blocked := WriteTurn(me, rc);
        if blocked {
          ret := 0;
          return;
        }
        if rc < 0 {
          FirstRefused(|buf|, driver, chunk);
          ret := if copied > 0 then copied else rc;
          return;
        }
        copied := copied + len;
        chunk := chunk + 1;
      }
      NoneRefused(|buf|, driver, chunk);
      ret := copied;
    }
  }
}
