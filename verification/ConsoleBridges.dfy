/**
 The two threads that forward the console log to a client: over a websocket,
 from the oldest output on and despite partial sends, and over telnet, from
 the moment of connection and with a single send per read.

 Each turn of a thread's endless loop is a method. Between turns, and while a
 turn waits for the socket, the UART may do anything its contract allows.
 What a connection was given is accounted for by the history of its reads.
 */
module ConsoleBridges {
  import opened Bytes
  import opened ConsoleLoggers
  import opened ConsoleRing
  import opened Errno

  const BRIDGE_BUF_SIZE: nat := 64

  // ---------------------------------------------------------------------
  // Histories of reads
  // ---------------------------------------------------------------------

  /** A read: the cursor it asked from, how far that lagged, and the positions it delivered. */
  datatype LogRead = LogRead(asked: nat, lag: nat, begin: nat, end: nat)

  /** The read that a turn makes at a cursor of a log. */
  ghost function ReadAt(l: Log, pos: nat): (r: LogRead)
    requires Inv(l) && pos <= l.received
    ensures pos <= r.begin <= r.end <= l.received <= |l.stream|
    ensures r.lag <= l.size - 2 * ChunkSize(l.size) ==> r.begin == pos
    ensures r.end - r.begin <= BRIDGE_BUF_SIZE
  {
    WindowCovers(l);
    LogRead(pos, l.received - pos, Max(pos, Start(l)), ReadSpec(l, pos, BRIDGE_BUF_SIZE).pos)
  }

  /**
   A turn's read starts at its cursor, or at the window if that is later, and
   delivers 64 bytes unless it reaches the end of what was received.
   */
  lemma ReadAtDelivers(l: Log, pos: nat)
    requires Inv(l) && pos <= l.received
    ensures var r := ReadAt(l, pos);
      && r.asked == pos && r.lag == l.received - pos
      && r.begin == (if pos < Start(l) then Start(l) else pos)
      && (r.end - r.begin == 64 || r.end == l.received)
  {
    ReadIsMaximal(l, pos, BRIDGE_BUF_SIZE);
  }

  /** The reads of one connection in order, with how much of each its socket accepted. */
  datatype Past = NoReads(from: nat) | Then(before: Past, read: LogRead, sent: nat)

  /** Positions i to j of a stream that has them. */
  function Cut(stream: seq<byte>, i: nat, j: nat): seq<byte> {
    if i <= j <= |stream| then stream[i..j] else []
  }

  /** Everything the reads delivered. */
  function Taken(stream: seq<byte>, p: Past): seq<byte> {
    match p
    case NoReads(_) => []
    case Then(before, r, _) => Taken(stream, before) + Cut(stream, r.begin, r.end)
  }

  /** Of each read, the part that the socket accepted. */
  function Accepted(stream: seq<byte>, p: Past): seq<byte> {
    match p
    case NoReads(_) => []
    case Then(before, r, n) => Accepted(stream, before) + Cut(stream, r.begin, r.begin + n)
  }

  /**
   The reads took the cursor to pos: each asked from where the one before it
   ended, and one that lagged by at most all but two chunks of the log skipped
   nothing. No send accepted more than was read.
   */
  ghost predicate History(size: nat, stream: seq<byte>, p: Past, pos: nat) {
    match p
    case NoReads(from) => pos == from
    case Then(before, r, n) =>
      && r.asked <= r.begin <= r.begin + n <= r.end == pos <= |stream|
      && (r.lag <= size - 2 * ChunkSize(size) ==> r.begin == r.asked)
      && History(size, stream, before, r.asked)
  }

  /** At every read but its first the reader lagged by at most all but two chunks of the log. */
  ghost predicate KeptUp(size: nat, p: Past) {
    p.Then? ==>
      && (p.before.Then? ==> p.read.lag <= size - 2 * ChunkSize(size))
      && KeptUp(size, p.before)
  }

  /** Every read was accepted whole. */
  predicate Whole(p: Past) {
    p.Then? ==> p.read.begin + p.sent == p.read.end && Whole(p.before)
  }

  function Origin(p: Past): nat {
    match p
    case NoReads(from) => from
    case Then(before, _, _) => Origin(before)
  }

  function FirstRead(p: Past): LogRead
    requires p.Then?
  {
    if p.before.NoReads? then p.read else FirstRead(p.before)
  }

  lemma {:induction false} OnLonger(size: nat, stream: seq<byte>, longer: seq<byte>, p: Past, pos: nat)
    requires stream <= longer && History(size, stream, p, pos)
    ensures History(size, longer, p, pos)
    ensures Taken(longer, p) == Taken(stream, p) && Accepted(longer, p) == Accepted(stream, p)
  {
    if p.Then? {
      OnLonger(size, stream, longer, p.before, p.read.asked);
    }
  }

  /** A reader that kept up was given a contiguous piece of the stream, from where it first read. */
  lemma {:induction false} TakenIsPiece(size: nat, stream: seq<byte>, p: Past, pos: nat)
    requires History(size, stream, p, pos) && KeptUp(size, p) && p.Then?
    ensures Origin(p) == FirstRead(p).asked <= FirstRead(p).begin <= pos <= |stream|
    ensures FirstRead(p).lag <= size - 2 * ChunkSize(size) ==> FirstRead(p).begin == Origin(p)
    ensures Taken(stream, p) == stream[FirstRead(p).begin..pos]
  {
    if p.before.Then? {
      TakenIsPiece(size, stream, p.before, p.read.asked);
      var b := FirstRead(p).begin;
      assert stream[b..p.read.begin] + stream[p.read.begin..pos] == stream[b..pos];
    }
  }

  /** The client holds everything read for it exactly when every read was accepted whole. */
  lemma {:induction false} AcceptedAllIff(size: nat, stream: seq<byte>, p: Past, pos: nat)
    requires History(size, stream, p, pos)
    ensures |Accepted(stream, p)| <= |Taken(stream, p)|
    ensures Accepted(stream, p) == Taken(stream, p) <==> Whole(p)
  {
    if p.Then? {
      var r := p.read;
      AcceptedAllIff(size, stream, p.before, r.asked);
      assert stream[r.begin..r.end][..p.sent] == stream[r.begin..r.begin + p.sent];
      SplitEqual(Accepted(stream, p.before), Taken(stream, p.before),
                 stream[r.begin..r.begin + p.sent], stream[r.begin..r.end]);
    }
  }

  /** If only the last read may be accepted in part, the client holds a prefix of what was read. */
  lemma AcceptedIsPrefix(size: nat, stream: seq<byte>, p: Past, pos: nat)
    requires History(size, stream, p, pos) && (p.Then? ==> Whole(p.before))
    ensures Accepted(stream, p) <= Taken(stream, p)
  {
    if p.Then? {
      AcceptedAllIff(size, stream, p.before, p.read.asked);
    }
  }

  /** The account once the socket has answered for the last read. */
  lemma AcceptedOfLast(stream: seq<byte>, p: Past, n: nat)
    requires p.Then? && p.sent == 0 && p.read.begin + n <= p.read.end <= |stream|
    ensures Accepted(stream, p.(sent := n)) == Accepted(stream, p) + stream[p.read.begin..p.read.begin + n]
  {
  }

  /** Concatenations of two pieces with two that are no shorter are equal only piece by piece. */
  lemma SplitEqual(a: seq<byte>, t: seq<byte>, u: seq<byte>, v: seq<byte>)
    requires |a| <= |t| && |u| <= |v| && u == v[..|u|]
    ensures a + u == t + v <==> a == t && |u| == |v|
  {
    if a + u == t + v {
      assert |a| == |t|;
      assert a == (a + u)[..|a|] == (t + v)[..|t|] == t;
    }
  }

  /** The read of a turn: never negative, so the retry on a negative result is dead code. */
  method ReadLog(log: ConsoleLogger, buf: array<byte>, pos: nat) returns (nr: nat, end: nat)
    requires log.Valid() && buf != log.logBuffer && buf.Length == BRIDGE_BUF_SIZE && pos <= log.received
    modifies log`stream, log.logBuffer, buf
    ensures log.Valid() && DmaOnly(old(log.View()), log.View())
    ensures var r := old(ReadAt(log.View(), pos));
      && end == r.end && nr == r.end - r.begin
      && buf[..nr] == old(log.stream)[r.begin..r.end]
  {
    WindowCovers(log.View());
    var ret, pos', _ := log.ConsoleLogRead(buf, buf.Length, pos);
    assert ret >= 0;
    nr, end := ret, pos';
  }

  // ---------------------------------------------------------------------
  // The websocket bridge
  // ---------------------------------------------------------------------

  type positive = k: int | k > 0 witness 1

  /** What a blocking socket answers to a message: bytes it takes, at least one, or an error. */
  datatype Answer = Takes(most: positive) | Fails(errno: positive)

  /** The socket took every message from number m0 up to m1. */
  predicate AllTaken(answers: nat -> Answer, m0: nat, m1: nat) {
    m0 < m1 ==> answers(m1 - 1).Takes? && AllTaken(answers, m0, m1 - 1)
  }

  /** The client was there before every call of ws_send from number c0 up to c1. */
  predicate NoneLeft(leaves: nat -> bool, c0: nat, c1: nat) {
    c0 < c1 ==> !leaves(c1 - 1) && NoneLeft(leaves, c0, c1 - 1)
  }

  lemma {:induction false} AllTakenJoin(answers: nat -> Answer, m0: nat, m1: nat, m2: nat)
    requires m0 <= m1 <= m2
    ensures AllTaken(answers, m0, m2) <==> AllTaken(answers, m0, m1) && AllTaken(answers, m1, m2)
    decreases m2
  {
    if m1 < m2 {
      AllTakenJoin(answers, m0, m1, m2 - 1);
    }
  }

  lemma {:induction false} NoneLeftJoin(leaves: nat -> bool, c0: nat, c1: nat, c2: nat)
    requires c0 <= c1 <= c2
    ensures NoneLeft(leaves, c0, c2) <==> NoneLeft(leaves, c0, c1) && NoneLeft(leaves, c1, c2)
    decreases c2
  {
    if c1 < c2 {
      NoneLeftJoin(leaves, c0, c1, c2 - 1);
    }
  }

  /** What happens to the bridge between turns of the send thread, and the turns. */
  datatype WebsocketEvent = Connect(socket: nat, registered: bool) | Leave | Turn

  /** Whether the last client to connect was registered and has not left by itself. */
  predicate ClientStays(events: seq<WebsocketEvent>, before: bool) {
    if events == [] then before
    else
      match events[|events| - 1]
      case Connect(_, registered) => registered
      case Leave => false
      case Turn => ClientStays(events[..|events| - 1], before)
  }

  class WebsocketBridge {
    const log: ConsoleLogger
    const buf: array<byte>
    var fd: int
    var newClient: bool
    var pos: nat

    // The other side: what the socket answers to each message, whether the
    // client is found to have left before each call of ws_send, and how many of
    // either there have been.
    const answers: nat -> Answer
    const leaves: nat -> bool
    var messages: nat
    var calls: nat

    // The account of the current connection: its reads and what its socket has accepted.
    ghost var past: Past
    ghost var accepted: seq<byte>

    ghost predicate Equipped()
      reads this, log, log.logBuffer
    {
      && buf.Length == BRIDGE_BUF_SIZE && buf != log.logBuffer
      && log.Valid()
      && fd >= -1
      && pos <= log.received <= |log.stream|
    }

    ghost predicate Wired()
      reads this, log, log.logBuffer
    {
      && Equipped()
      && Origin(past) == 0
      && (past.Then? ==> History(log.size, log.stream, past, pos))
      && (newClient ==> past.NoReads?)
      && (fd != -1 && !newClient ==> past.Then?)
    }

    /** The state at the top of the loop: nothing read is waiting to be sent. */
    ghost predicate AtLoopTop()
      reads this, log, log.logBuffer
    {
      && Wired()
      && accepted == Accepted(log.stream, past)
      && accepted <= Taken(log.stream, past)
      && (fd != -1 ==> Whole(past))
    }

    method UartRuns()
      requires Equipped()
      modifies log, log.logBuffer
      ensures Equipped() && old(log.stream) <= log.stream
    {
      log.RunUart();
      WindowCovers(log.View());
    }

    method UartGoesOn()
      requires AtLoopTop()
      modifies log, log.logBuffer
      ensures AtLoopTop()
    {
      ghost var s := log.stream;
      UartRuns();
      if past.Then? {
        OnLonger(log.size, s, log.stream, past, pos);
      }
    }

    constructor (log: ConsoleLogger, answers: nat -> Answer, leaves: nat -> bool)
      requires log.Valid()
      ensures this.log == log && fresh(buf)
      ensures AtLoopTop() && fd == -1
    {
      this.log := log;
      this.answers, this.leaves := answers, leaves;
      messages, calls := 0, 0;
      buf := new byte[BRIDGE_BUF_SIZE](_ => 0);
      fd, newClient, pos := -1, false, 0;
      past, accepted := NoReads(0), [];
      new;
      WindowCovers(log.View());
    }

    method EndClientConnection()
      modifies this`fd
      ensures fd == -1
    {
      fd := -1;
    }

    /** A client was upgraded to a websocket, perhaps kicking another one out. */
    method ClientConnect(socket: int, registered: bool)
      requires AtLoopTop() && socket >= 0
      modifies this`fd, this`newClient, this`past, this`accepted
      ensures AtLoopTop() && newClient && past == NoReads(0) && accepted == []
      ensures fd == if registered then socket else -1
    {
      if fd >= 0 {
        EndClientConnection();
      }
      fd := socket;
      newClient := true;
      past, accepted := NoReads(0), [];
      if !registered {
        fd := -1;
      }
    }

    /** The blocking socket. The UART keeps running. */
    method WebsocketSendMsg(from: nat, to: nat) returns (ret: int, errno: int)
      requires Equipped() && fd >= 0 && from < to <= buf.Length
      modifies this`accepted, this`messages, log, log.logBuffer
      ensures Equipped() && old(log.stream) <= log.stream
      ensures messages == old(messages) + 1
      ensures match answers(old(messages))
              case Takes(most) => ret == Min(most, to - from)
              case Fails(e) => ret < 0 && errno == e
      ensures accepted == if ret > 0 then old(accepted) + buf[from..from + ret] else old(accepted)
    {
      UartRuns();
      match answers(messages) {
        case Takes(most) =>
          ret, errno := Min(most, to - from), 0;
          accepted := accepted + buf[from..from + ret];
        case Fails(e) =>
          ret, errno := -1, e;
      }
      messages := messages + 1;
    }

    /**
     ws_send of buf[from..to]; err is the error of the message that failed, 0 if
     none did. The connection ends exactly on an error that is not just a full
     socket met by a caller that does not want to block.
     */
    method WsSend(from: nat, to: nat, block: bool) returns (ret: int, ghost err: int)
      requires Equipped() && from <= to <= buf.Length
      modifies this`accepted, this`fd, this`messages, log, log.logBuffer
      ensures Equipped() && old(log.stream) <= log.stream
      ensures old(fd) < 0 ==> ret == -ENOTCONN && err == 0 && messages == old(messages)
      ensures old(fd) >= 0 ==> (err == 0 <==> ret == to - from)
      ensures old(messages) <= messages && (err == 0 <==> AllTaken(answers, old(messages), messages))
      ensures err != 0 ==>
        && old(messages) < messages && AllTaken(answers, old(messages), messages - 1)
        && answers(messages - 1).Fails? && answers(messages - 1).errno == err
      ensures ret <= to - from
      ensures accepted == if ret > 0 then old(accepted) + buf[from..from + ret] else old(accepted)
      ensures fd == if err != 0 && (block || err != EAGAIN) then -1 else old(fd)
      ensures ret < 0 && old(fd) >= 0 ==> ret == -err && fd == -1
    {
      err := 0;
      if fd < 0 {
        return -ENOTCONN, 0;
      }
      var copied, errno := SendMessages(from, to);
      if errno != 0 {
        err := errno;
        if errno == EAGAIN && !block {
          return copied, err;
        }
        if copied > 0 {
          ret := copied;
        } else {
          ret := -errno;
        }
        EndClientConnection();
        return;
      }
      ret := copied;
    }

    /** The loop of ws_send: messages until everything is taken or one fails. */
    method SendMessages(from: nat, to: nat) returns (copied: nat, errno: int)
      requires Equipped() && fd >= 0 && from <= to <= buf.Length
      modifies this`accepted, this`messages, log, log.logBuffer
      ensures Equipped() && old(log.stream) <= log.stream
      ensures copied <= to - from && (errno == 0 <==> copied == to - from)
      ensures old(messages) <= messages && (errno == 0 <==> AllTaken(answers, old(messages), messages))
      ensures errno != 0 ==>
        && old(messages) < messages && AllTaken(answers, old(messages), messages - 1)
        && answers(messages - 1).Fails? && answers(messages - 1).errno == errno
      ensures accepted == old(accepted) + buf[from..from + copied]
    {
      copied, errno := 0, 0;
      while copied < to - from
        invariant copied <= to - from
        invariant Equipped() && old(log.stream) <= log.stream
        invariant old(messages) <= messages && AllTaken(answers, old(messages), messages)
        invariant accepted == old(accepted) + buf[from..from + copied]
      {
        var n, e := WebsocketSendMsg(from + copied, to);
        if n < 0 {
          errno := e;
          return;
        }
        assert buf[from..from + copied] + buf[from + copied..from + copied + n] == buf[from..from + copied + n];
        copied := copied + n;
      }
    }

    /**
     One turn of the send thread: while connected it makes one read, a new
     client's from position 0, and keeps the connection unless a message failed
     or the client left.
     */
    method SendThreadTurn()
      requires AtLoopTop()
      modifies this, log, log.logBuffer, buf
      ensures AtLoopTop() && old(messages) <= messages && old(calls) <= calls
      ensures fd == if AllTaken(answers, old(messages), messages) && NoneLeft(leaves, old(calls), calls) then old(fd) else -1
      ensures old(fd) == -1 ==> past == old(past)
      ensures old(fd) != -1 ==>
        && !newClient && past.Then? && past.before == old(past)
        && past.read == old(ReadAt(log.View(), if newClient then 0 else pos))
    {
      if fd == -1 {
        return;
      }
      if newClient {
        newClient := false;
        pos := 0;
      }
      var nr := ReadForClient();
      if nr == 0 {
        NothingToSend();
        return;
      }
      SendAll(nr);
    }

    /** Connected, with everything read so far accepted and the cursor where the next read starts. */
    ghost predicate BeforeRead()
      reads this, log, log.logBuffer
    {
      && buf.Length == BRIDGE_BUF_SIZE && buf != log.logBuffer
      && log.Valid()
      && fd >= 0 && !newClient
      && pos <= log.received <= |log.stream|
      && Origin(past) == 0 && History(log.size, log.stream, past, pos)
      && accepted == Accepted(log.stream, past) && Whole(past)
    }

    /** Connected, with the last read in the buffer and nothing of it sent yet. */
    ghost predicate BeforeSend(nr: nat)
      reads this, log, log.logBuffer, buf
    {
      && Wired() && fd >= 0 && !newClient && past.Then?
      && nr == past.read.end - past.read.begin <= buf.Length
      && buf[..nr] == log.stream[past.read.begin..past.read.end]
      && past.sent == 0 && Whole(past.before)
      && accepted == Accepted(log.stream, past.before)
    }

    method ReadForClient() returns (nr: nat)
      requires BeforeRead()
      modifies this`pos, this`past, log, log.logBuffer, buf
      ensures BeforeSend(nr) && past == Then(old(past), old(ReadAt(log.View(), pos)), 0)
    {
      ghost var s, r := log.stream, ReadAt(log.View(), pos);
      var end;
      nr, end := ReadLog(log, buf, pos);
      OnLonger(log.size, s, log.stream, past, pos);
      assert buf[..nr] == s[r.begin..r.end] == log.stream[r.begin..r.end];
      pos := end;
      past := Then(past, r, 0);
    }

    lemma NothingToSend()
      requires BeforeSend(0)
      ensures AtLoopTop()
    {
      AcceptedIsPrefix(log.size, log.stream, past, pos);
    }

    method SendAll(nr: nat)
      requires BeforeSend(nr)
      modifies this`accepted, this`fd, this`past, this`messages, this`calls, log, log.logBuffer
      ensures AtLoopTop() && old(messages) <= messages && old(calls) <= calls
      ensures fd == if AllTaken(answers, old(messages), messages) && NoneLeft(leaves, old(calls), calls) then old(fd) else -1
      ensures past.Then? && past.before == old(past.before) && past.read == old(past.read)
    {
      ghost var stream, sent, bytes := log.stream, accepted, buf[..nr];
      ghost var begin := past.read.begin;
      var copied := SendLoop(nr);
      assert buf[..copied] == bytes[..copied] == stream[begin..begin + copied];
      Settle(stream, sent, copied);
    }

    /** Until the read is accepted whole or the client is gone. */
    method SendLoop(nr: nat) returns (copied: nat)
      requires Equipped() && nr <= buf.Length && fd != -1
      modifies this`accepted, this`fd, this`messages, this`calls, log, log.logBuffer
      ensures Equipped() && old(log.stream) <= log.stream
      ensures old(messages) <= messages && old(calls) <= calls
      ensures copied <= nr && accepted == old(accepted) + buf[..copied]
      ensures fd == if AllTaken(answers, old(messages), messages) && NoneLeft(leaves, old(calls), calls) then old(fd) else -1
      ensures fd != -1 ==> copied == nr
    {
      copied := 0;
      while copied < nr && fd != -1
        invariant copied <= nr && Equipped() && old(log.stream) <= log.stream
        invariant old(messages) <= messages && old(calls) <= calls
        invariant accepted == old(accepted) + buf[..copied]
        invariant fd == if AllTaken(answers, old(messages), messages) && NoneLeft(leaves, old(calls), calls) then old(fd) else -1
        decreases nr - copied, fd != -1
      {
        ghost var m := messages;
        var n := SendRest(copied, nr);
        AllTakenJoin(answers, old(messages), m, messages);
        assert buf[..copied] + buf[copied..copied + n] == buf[..copied + n];
        copied := copied + n;
      }
    }

    /** One call of ws_send for the rest of the read, if the client is still there. */
    method SendRest(copied: nat, nr: nat) returns (n: nat)
      requires Equipped() && copied <= nr <= buf.Length && fd != -1
      modifies this`accepted, this`fd, this`messages, this`calls, log, log.logBuffer
      ensures Equipped() && old(log.stream) <= log.stream
      ensures old(messages) <= messages && calls == old(calls) + 1
      ensures n <= nr - copied && accepted == old(accepted) + buf[copied..copied + n]
      ensures fd == if AllTaken(answers, old(messages), messages) && !leaves(old(calls)) then old(fd) else -1
      ensures fd != -1 ==> n == nr - copied
    {
      n := 0;
      if leaves(calls) {
        EndClientConnection();
      }
      calls := calls + 1;
      if fd == -1 {
        return;
      }
      var ret, _ := WsSend(copied, nr, true);
      if ret < 0 {
        EndClientConnection();
        return;
      }
      n := ret;
    }

    /** Enter in the account how much of the last read was accepted. */
    ghost method Settle(stream: seq<byte>, sent: seq<byte>, copied: nat)
      requires Equipped() && !newClient && past.Then? && Origin(past) == 0 && stream <= log.stream
      requires past.read.begin + copied <= past.read.end <= |stream| && copied <= buf.Length
      requires buf[..copied] == stream[past.read.begin..past.read.begin + copied]
      requires sent == Accepted(stream, past.before) && accepted == sent + buf[..copied]
      requires History(log.size, stream, past, pos) && Whole(past.before)
      requires fd != -1 ==> past.read.begin + copied == past.read.end
      modifies this`past
      ensures AtLoopTop() && past == old(past).(sent := copied)
    {
      OnLonger(log.size, stream, log.stream, past.before, past.read.asked);
      assert stream[past.read.begin..past.read.begin + copied] == log.stream[past.read.begin..past.read.begin + copied];
      assert History(log.size, log.stream, past.(sent := copied), pos);
      past := past.(sent := copied);
      AcceptedIsPrefix(log.size, log.stream, past, pos);
    }

    /** What the account of a connection says about it. */
    lemma Conclude()
      requires AtLoopTop()
      ensures fd != -1 ==> accepted == Taken(log.stream, past)
      ensures past.Then? && KeptUp(log.size, past) ==>
        && FirstRead(past).asked == 0 && FirstRead(past).begin <= pos <= |log.stream|
        && accepted <= log.stream[FirstRead(past).begin..pos]
        && (fd != -1 ==> accepted == log.stream[FirstRead(past).begin..pos])
    {
      if past.Then? {
        AcceptedAllIff(log.size, log.stream, past, pos);
        if KeptUp(log.size, past) {
          TakenIsPiece(log.size, log.stream, past, pos);
        }
      }
    }

    /** One event, and whatever the UART does after it. */
    method Happen(event: WebsocketEvent)
      requires AtLoopTop()
      modifies this, log, log.logBuffer, buf
      ensures AtLoopTop() && old(messages) <= messages && old(calls) <= calls
      ensures fd == match event
                    case Connect(socket, registered) => if registered then socket else -1
                    case Leave => -1
                    case Turn =>
                      if AllTaken(answers, old(messages), messages) && NoneLeft(leaves, old(calls), calls)
                      then old(fd) else -1
    {
      match event {
        case Connect(socket, registered) => ClientConnect(socket, registered);
        case Leave => EndClientConnection();
        case Turn => SendThreadTurn();
      }
      UartGoesOn();
    }

    /** Events in turn: who is connected at the end, and why not. */
    method Play(events: seq<WebsocketEvent>)
      requires AtLoopTop()
      modifies this, log, log.logBuffer, buf
      ensures AtLoopTop() && old(messages) <= messages && old(calls) <= calls
      ensures fd != -1 ==> ClientStays(events, old(fd) != -1)
      ensures ClientStays(events, old(fd) != -1)
        && AllTaken(answers, old(messages), messages) && NoneLeft(leaves, old(calls), calls)
        ==> fd != -1
    {
      var n := 0;
      while n < |events|
        invariant n <= |events| && AtLoopTop()
        invariant old(messages) <= messages && old(calls) <= calls
        invariant fd != -1 ==> ClientStays(events[..n], old(fd) != -1)
        invariant (ClientStays(events[..n], old(fd) != -1)
                   && AllTaken(answers, old(messages), messages) && NoneLeft(leaves, old(calls), calls)) ==> fd != -1
      {
        assert events[..n + 1][..n] == events[..n];
        ghost var m, c := messages, calls;
        Happen(events[n]);
        AllTakenJoin(answers, old(messages), m, messages);
        NoneLeftJoin(leaves, old(calls), c, calls);
        n := n + 1;
      }
      assert events[..n] == events;
    }

    /**
     Any history of connections, disconnections, UART activity and turns: at
     the top of the loop the client has accepted a prefix of what was read for
     it, all of it while connected. If it lagged by at most all but two chunks
     at each read after its first, that is the log's stream from its first
     read, which asked for position 0, to the cursor. A client that connected
     and did not leave is still connected unless some message failed or a call
     found it gone.
     */
    method Run(events: seq<WebsocketEvent>)
      requires AtLoopTop()
      modifies this, log, log.logBuffer, buf
      ensures AtLoopTop() && accepted <= Taken(log.stream, past)
      ensures fd != -1 ==> accepted == Taken(log.stream, past)
      ensures past.Then? && KeptUp(log.size, past) ==>
        && FirstRead(past).asked == 0 && FirstRead(past).begin <= pos <= |log.stream|
        && accepted <= log.stream[FirstRead(past).begin..pos]
        && (fd != -1 ==> accepted == log.stream[FirstRead(past).begin..pos])
      ensures old(messages) <= messages && old(calls) <= calls
      ensures fd != -1 ==> ClientStays(events, old(fd) != -1)
      ensures ClientStays(events, old(fd) != -1)
        && AllTaken(answers, old(messages), messages) && NoneLeft(leaves, old(calls), calls)
        ==> fd != -1
    {
      Play(events);
      Conclude();
    }
  }

  // ---------------------------------------------------------------------
  // The telnet bridge
  // ---------------------------------------------------------------------

  /** How much of n bytes a send with this answer accepted. */
  function Clip(answer: int, n: nat): (c: nat)
    ensures c <= n
    ensures 0 <= answer <= n ==> c == answer
    ensures answer < 0 ==> c == 0
  {
    Max(0, Min(answer, n))
  }

  datatype TelnetEvent = ConnectTelnet(socket: nat) | LeaveTelnet | TurnTelnet(gone: bool, answer: int)

  /** Whether the last client to connect has not left by itself. */
  predicate TelnetStays(events: seq<TelnetEvent>, before: bool) {
    if events == [] then before
    else
      match events[|events| - 1]
      case ConnectTelnet(_) => true
      case LeaveTelnet => false
      case TurnTelnet(_, _) => TelnetStays(events[..|events| - 1], before)
  }

  /**
   The telnet send thread. It starts at the end of the log and sends each read
   with one send call whose count it does not look at, so a short send loses
   the rest of that read.
   */
  class TelnetBridge {
    const log: ConsoleLogger
    const buf: array<byte>
    var fd: int
    var newClient: bool
    var pos: nat

    // The account of the current connection: its reads and what its socket has accepted.
    ghost var past: Past
    ghost var accepted: seq<byte>

    ghost predicate AtLoopTop()
      reads this, log, log.logBuffer
    {
      && buf.Length == BRIDGE_BUF_SIZE && buf != log.logBuffer
      && log.Valid()
      && fd >= -1
      && pos <= log.received <= |log.stream|
      && (past.Then? ==> FirstRead(past).lag == 0 && History(log.size, log.stream, past, pos))
      && accepted == Accepted(log.stream, past)
      && (newClient ==> past.NoReads?)
      && (fd != -1 && !newClient ==> past.Then?)
    }

    constructor (log: ConsoleLogger)
      requires log.Valid()
      ensures this.log == log && fresh(buf)
      ensures AtLoopTop() && fd == -1
    {
      this.log := log;
      buf := new byte[BRIDGE_BUF_SIZE](_ => 0);
      fd, newClient, pos := -1, false, 0;
      past, accepted := NoReads(0), [];
      new;
      WindowCovers(log.View());
    }

    method UartGoesOn()
      requires AtLoopTop()
      modifies log, log.logBuffer
      ensures AtLoopTop()
    {
      ghost var s := log.stream;
      log.RunUart();
      WindowCovers(log.View());
      if past.Then? {
        OnLonger(log.size, s, log.stream, past, pos);
      }
    }

    method UartStores(b: byte)
      requires AtLoopTop() && Enabled(log.View(), DmaWrite(b))
      modifies log, log.logBuffer
      ensures AtLoopTop() && log.View() == Next(old(log.View()), DmaWrite(b))
    {
      ghost var s := log.stream;
      log.DmaStore(b);
      if past.Then? {
        OnLonger(log.size, s, log.stream, past, pos);
      }
    }

    method ClientConnect(socket: nat)
      requires AtLoopTop()
      modifies this
      ensures AtLoopTop() && fd == socket && newClient
      ensures past == NoReads(0) && accepted == []
    {
      fd, newClient := socket, true;
      past, accepted := NoReads(0), [];
    }

    /**
     One turn. While connected it makes one read, a new client's from the end
     of the log. The client may be `gone` by the time of the send; otherwise
     `answer` is what send returns.
     */
    method SendThreadTurn(gone: bool, answer: int)
      requires AtLoopTop()
      modifies this, log, log.logBuffer, buf
      ensures AtLoopTop() && DmaOnly(old(log.View()), log.View())
      ensures old(fd) == -1 ==> fd == -1 && past == old(past)
      ensures old(fd) != -1 ==>
        var r := old(ReadAt(log.View(), if newClient then log.received else pos));
        && !newClient
        && past == Then(if old(newClient) then NoReads(old(log.received)) else old(past), r,
                        if gone then 0 else Clip(answer, r.end - r.begin))
        && fd == if r.begin < r.end && (gone || answer <= 0) then -1 else old(fd)
    {
      if fd == -1 {
        return;
      }
      if newClient {
        pos := log.HostConsoleSeekEnd();
        newClient := false;
        past := NoReads(pos);
      }
      var nr := ReadForClient();
      if nr == 0 {
        return;
      }
      if gone {
        fd := -1;
        return;
      }
      SendOnce(nr, answer);
    }

    /** Connected, with the cursor where the next read starts. */
    ghost predicate BeforeRead()
      reads this, log, log.logBuffer
    {
      && buf.Length == BRIDGE_BUF_SIZE && buf != log.logBuffer
      && log.Valid()
      && fd >= 0 && !newClient
      && pos <= log.received <= |log.stream|
      && History(log.size, log.stream, past, pos)
      && (if past.Then? then FirstRead(past).lag == 0 else pos == log.received)
      && accepted == Accepted(log.stream, past)
    }

    method ReadForClient() returns (nr: nat)
      requires BeforeRead()
      modifies this`pos, this`past, log, log.logBuffer, buf
      ensures AtLoopTop() && DmaOnly(old(log.View()), log.View())
      ensures past == Then(old(past), old(ReadAt(log.View(), pos)), 0)
      ensures nr == past.read.end - past.read.begin <= buf.Length
      ensures buf[..nr] == log.stream[past.read.begin..past.read.end]
    {
      ghost var s, r := log.stream, ReadAt(log.View(), pos);
      var end;
      nr, end := ReadLog(log, buf, pos);
      OnLonger(log.size, s, log.stream, past, pos);
      assert buf[..nr] == s[r.begin..r.end] == log.stream[r.begin..r.end];
      pos := end;
      past := Then(past, r, 0);
    }

    /** The one send of what was read, and the account of it. */
    method SendOnce(n: nat, answer: int)
      requires AtLoopTop() && fd != -1 && past.Then? && past.sent == 0
      requires 0 < n == past.read.end - past.read.begin <= buf.Length
      requires buf[..n] == log.stream[past.read.begin..past.read.end]
      modifies this`fd, this`past, this`accepted
      ensures AtLoopTop() && past == old(past).(sent := Clip(answer, n))
      ensures accepted == old(accepted) + buf[..Clip(answer, n)]
      ensures fd == if answer <= 0 then -1 else old(fd)
    {
      ghost var sent, begin := Clip(answer, n), past.read.begin;
      AcceptedOfLast(log.stream, past, sent);
      assert buf[..sent] == buf[..n][..sent] == log.stream[begin..begin + sent];
      past, accepted := past.(sent := sent), accepted + buf[..sent];
      if answer <= 0 {
        fd := -1;
      }
    }

    /** What the account of a connection says about it. */
    lemma Conclude()
      requires AtLoopTop()
      ensures accepted == Taken(log.stream, past) <==> Whole(past)
      ensures past.Then? && Whole(past) && KeptUp(log.size, past) ==>
        && Origin(past) <= pos <= |log.stream|
        && accepted == log.stream[Origin(past)..pos]
    {
      if past.Then? {
        AcceptedAllIff(log.size, log.stream, past, pos);
        if KeptUp(log.size, past) {
          TakenIsPiece(log.size, log.stream, past, pos);
        }
      }
    }

    /** One event, and whatever the UART does after it. */
    method Happen(event: TelnetEvent)
      requires AtLoopTop()
      modifies this, log, log.logBuffer, buf
      ensures AtLoopTop()
      ensures match event
              case ConnectTelnet(socket) => fd == socket
              case LeaveTelnet => fd == -1
              case TurnTelnet(gone, answer) =>
                && (fd == old(fd) || fd == -1)
                && (!gone && answer > 0 ==> fd == old(fd))
    {
      match event {
        case ConnectTelnet(socket) => ClientConnect(socket);
        case LeaveTelnet => fd := -1;
        case TurnTelnet(gone, answer) => SendThreadTurn(gone, answer);
      }
      UartGoesOn();
    }

    /** Events in turn: who is connected at the end, and why not. */
    method Play(events: seq<TelnetEvent>)
      requires AtLoopTop()
      modifies this, log, log.logBuffer, buf
      ensures AtLoopTop()
      ensures fd != -1 ==> TelnetStays(events, old(fd) != -1)
      ensures TelnetStays(events, old(fd) != -1)
        && (forall k :: 0 <= k < |events| && events[k].TurnTelnet? ==> !events[k].gone && events[k].answer > 0)
        ==> fd != -1
    {
      var n := 0;
      while n < |events|
        invariant n <= |events| && AtLoopTop()
        invariant fd != -1 ==> TelnetStays(events[..n], old(fd) != -1)
        invariant TelnetStays(events[..n], old(fd) != -1)
          && (forall k :: 0 <= k < n && events[k].TurnTelnet? ==> !events[k].gone && events[k].answer > 0)
          ==> fd != -1
      {
        assert events[..n + 1][..n] == events[..n];
        Happen(events[n]);
        n := n + 1;
      }
      assert events[..n] == events;
    }

    /**
     Over any history a client holds all that was read for it exactly when every
     send accepted its read whole. If also it kept up, it holds all output from
     the end of the log at its first turn to the cursor. A client that did not
     leave is still connected unless a send failed or found it gone.
     */
    method Run(events: seq<TelnetEvent>)
      requires AtLoopTop()
      modifies this, log, log.logBuffer, buf
      ensures AtLoopTop()
      ensures accepted == Taken(log.stream, past) <==> Whole(past)
      ensures past.Then? && Whole(past) && KeptUp(log.size, past) ==>
        && Origin(past) <= pos <= |log.stream|
        && accepted == log.stream[Origin(past)..pos]
      ensures fd != -1 ==> TelnetStays(events, old(fd) != -1)
      ensures TelnetStays(events, old(fd) != -1)
        && (forall k :: 0 <= k < |events| && events[k].TurnTelnet? ==> !events[k].gone && events[k].answer > 0)
        ==> fd != -1
    {
      Play(events);
      Conclude();
    }
  }

  /** A history in which a client that stays connected misses output for good: one short send. */
  method ShortSendLoses(size: nat) returns (bridge: TelnetBridge)
    requires Geometry(size)
    ensures bridge.AtLoopTop() && bridge.fd != -1
    ensures !Whole(bridge.past) && bridge.accepted != Taken(bridge.log.stream, bridge.past)
  {
    var log := new ConsoleLogger(size);
    bridge := new TelnetBridge(log);
    bridge.ClientConnect(5);
    bridge.SendThreadTurn(false, 0);
    while |log.stream| < 2
      invariant bridge.AtLoopTop() && bridge.log == log && fresh(bridge.buf)
      invariant bridge.fd == 5 && !bridge.newClient
      invariant bridge.pos == 0
      invariant log.received == 0 && log.granted == ChunkSize(size)
      decreases 2 - |log.stream|
    {
      bridge.UartStores(0);
    }
    log.UartRxReady(2);
    bridge.SendThreadTurn(false, 1);
    bridge.Conclude();
  }
}
