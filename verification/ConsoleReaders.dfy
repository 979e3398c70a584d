/**
 Several readers of one console log, each with its own cursor. A reader that
 falls too far behind is moved forward silently; these theorems say what each
 reader has been given and what it has lost, in any interleaving.
 */
module ConsoleReaders {
  import opened Bytes
  import opened Cyclic
  import opened ConsoleRing
  import opened Errno

  /**
   begin:   cursor when the reader last chose its position;
   pos:     its cursor now;
   bytes:   everything read since, and places the stream position of each byte;
   skipped: how many positions its cursor was moved over without reading.
   */
  datatype Reader = Reader(begin: nat, pos: nat, bytes: seq<byte>, places: seq<nat>, skipped: nat)

  datatype Event =
    | Uart(step: Step)
    | Read(reader: nat, n: nat)
    | SeekEnd(reader: nat)
    | Rewind(reader: nat)

  datatype System = System(log: Log, readers: seq<Reader>)

  function NewReader(pos: nat): Reader {
    Reader(pos, pos, [], [], 0)
  }

  /** The bytes copied out of the ring for positions p to p + m. */
  function RingBytes(l: Log, p: nat, m: nat): seq<byte>
    requires l.size > 0 && |l.buffer| == l.size
  {
    seq(m, i requires 0 <= i < m => l.buffer[Slot(l.size, p + i)])
  }

  /** console_log_read as it runs: on the ring, not on the stream. */
  function RingRead(l: Log, pos: nat, n: nat): ReadResult
    requires Inv(l)
  {
    if pos > l.received then ReadResult(-EINVAL, pos, [])
    else
      WindowCovers(l);
      var p: nat := Max(pos, Start(l));
      var m: nat := Min(n, l.received - p);
      ReadResult(m, p + m, RingBytes(l, p, m))
  }

  lemma RingReadIsStream(l: Log, pos: nat, n: nat)
    requires Inv(l)
    ensures RingRead(l, pos, n) == ReadSpec(l, pos, n)
  {
    if pos <= l.received {
      WindowCovers(l);
      var p: nat := Max(pos, Start(l));
      var m: nat := Min(n, l.received - p);
      forall i | 0 <= i < m ensures RingBytes(l, p, m)[i] == l.stream[p + i] {
        assert Holds(l, p + i);
      }
      assert RingBytes(l, p, m) == l.stream[p..p + m];
    }
  }

  /** A read that asks for something returns nothing only at the end of what was received. */
  lemma EmptyReadIff(l: Log, pos: nat, n: nat)
    requires Inv(l) && pos <= l.received && n > 0
    ensures RingRead(l, pos, n).ret == 0 <==> pos == l.received
  {
    WindowCovers(l);
  }

  /** The cursor and the account of a reader after a read. */
  function AfterRead(l: Log, r: Reader, n: nat): Reader
    requires Inv(l)
  {
    var x := RingRead(l, r.pos, n);
    if x.ret < 0 then r
    else
      var p := x.pos - |x.bytes|;
      assert |x.bytes| == x.ret && p >= r.pos;
      Reader(r.begin, x.pos, r.bytes + x.bytes,
             r.places + seq(|x.bytes|, i requires 0 <= i < |x.bytes| => p + i),
             r.skipped + (p - r.pos))
  }

  predicate Possible(s: System, e: Event)
    requires Inv(s.log)
  {
    match e
    case Uart(step) => Enabled(s.log, step)
    case Read(k, _) => k < |s.readers|
    case SeekEnd(k) => k < |s.readers|
    case Rewind(k) => k < |s.readers|
  }

  function Happen(s: System, e: Event): System
    requires Inv(s.log) && Possible(s, e)
  {
    match e
    case Uart(step) => s.(log := Next(s.log, step))
    case Read(k, n) => s.(readers := s.readers[k := AfterRead(s.log, s.readers[k], n)])
    case SeekEnd(k) => s.(readers := s.readers[k := NewReader(s.log.received)])
    case Rewind(k) => s.(readers := s.readers[k := NewReader(0)])
  }

  // ---------------------------------------------------------------------
  // What every reader's account says
  // ---------------------------------------------------------------------

  ghost predicate Increasing(places: seq<nat>) {
    forall i, j :: 0 <= i < j < |places| ==> places[i] < places[j]
  }

  /**
   The cursor never passes what has been received; positions delivered strictly
   increase; every byte delivered is the stream's byte at its position; and the
   distance travelled is what was delivered plus what was skipped.
   */
  ghost predicate Accounted(stream: seq<byte>, received: nat, r: Reader) {
    && r.begin <= r.pos <= received <= |stream|
    && |r.places| == |r.bytes|
    && r.pos - r.begin == |r.bytes| + r.skipped
    && Increasing(r.places)
    && (forall i :: 0 <= i < |r.places| ==> r.begin <= r.places[i] < r.pos)
    && (forall i :: 0 <= i < |r.places| ==> r.bytes[i] == stream[r.places[i]])
  }

  ghost predicate SystemInv(s: System) {
    && Inv(s.log)
    && (forall k :: 0 <= k < |s.readers| ==> Accounted(s.log.stream, s.log.received, s.readers[k]))
  }

  lemma ReadKeepsAccount(l: Log, r: Reader, n: nat)
    requires Inv(l) && Accounted(l.stream, l.received, r)
    ensures Accounted(l.stream, l.received, AfterRead(l, r, n))
    ensures AfterRead(l, r, n).skipped == r.skipped + Max(0, Start(l) - r.pos)
  {
    RingReadIsStream(l, r.pos, n);
    WindowCovers(l);
  }

  lemma StreamGrows(s: seq<byte>, received: nat, t: seq<byte>, received': nat, r: Reader)
    requires Accounted(s, received, r) && s <= t && received <= received' <= |t|
    ensures Accounted(t, received', r)
  {
  }

  lemma HappenKeepsInv(s: System, e: Event)
    requires SystemInv(s) && Possible(s, e)
    ensures SystemInv(Happen(s, e))
  {
    match e
    case Uart(step) =>
      NextKeepsInv(s.log, step);
      StepAccounts(s.log, step);
      var l' := Next(s.log, step);
      forall k | 0 <= k < |s.readers| ensures Accounted(l'.stream, l'.received, s.readers[k]) {
        WindowCovers(l');
        StreamGrows(s.log.stream, s.log.received, l'.stream, l'.received, s.readers[k]);
      }
    case Read(k, n) => ReadKeepsAccount(s.log, s.readers[k], n);
    case SeekEnd(k) => WindowCovers(s.log);
    case Rewind(k) => WindowCovers(s.log);
  }

  ghost predicate Plays(s: System, run: seq<Event>)
    requires SystemInv(s)
    decreases run
  {
    run != [] ==>
      && Possible(s, run[0])
      && (HappenKeepsInv(s, run[0]);
          Plays(Happen(s, run[0]), run[1..]))
  }

  ghost function Outcome(s: System, run: seq<Event>): (s': System)
    requires SystemInv(s) && Plays(s, run)
    ensures SystemInv(s')
    decreases run
  {
    if run == [] then s
    else
      HappenKeepsInv(s, run[0]);
      Outcome(Happen(s, run[0]), run[1..])
  }

  function EventBytes(e: Event): seq<byte> {
    if e.Uart? then StepBytes(e.step) else []
  }

  /** The bytes a run puts on the wire. */
  function WireBytes(run: seq<Event>): seq<byte> {
    if run == [] then [] else EventBytes(run[0]) + WireBytes(run[1..])
  }

  lemma EventStream(s: System, e: Event)
    requires SystemInv(s) && Possible(s, e)
    ensures Happen(s, e).log.stream == s.log.stream + EventBytes(e)
    ensures |Happen(s, e).readers| == |s.readers|
  {
    if e.Uart? {
      StepAccounts(s.log, e.step);
    }
  }

  lemma {:induction false} OutcomeStream(s: System, run: seq<Event>)
    requires SystemInv(s) && Plays(s, run)
    ensures Outcome(s, run).log.stream == s.log.stream + WireBytes(run)
    ensures |Outcome(s, run).readers| == |s.readers|
    decreases run
  {
    if run != [] {
      HappenKeepsInv(s, run[0]);
      EventStream(s, run[0]);
      OutcomeStream(Happen(s, run[0]), run[1..]);
      Associate(s.log.stream, EventBytes(run[0]), WireBytes(run[1..]));
    }
  }

  /**
   Conservation for every reader, in every interleaving of UART activity with
   reads, seeks and rewinds by any number of readers: what it holds are bytes
   of the wire at strictly increasing positions, nothing is counted twice or
   lost uncounted, and its next read cannot take the -EINVAL branch.
   */
  lemma EveryReaderConserves(size: nat, memory: seq<byte>, readers: nat, run: seq<Event>, k: nat)
    requires Geometry(size) && |memory| == size && k < readers
    requires Plays(System(Fresh(size, memory), seq(readers, _ => NewReader(0))), run)
    ensures var s := Outcome(System(Fresh(size, memory), seq(readers, _ => NewReader(0))), run);
      && k < |s.readers|
      && Accounted(WireBytes(run), s.log.received, s.readers[k])
      && (forall n: nat :: RingRead(s.log, s.readers[k].pos, n).ret >= 0)
  {
    OutcomeStream(System(Fresh(size, memory), seq(readers, _ => NewReader(0))), run);
  }

  // ---------------------------------------------------------------------
  // A reader that keeps up loses nothing
  // ---------------------------------------------------------------------

  /** At each of its reads in the run, reader k lags by at most all but two chunks of the log. */
  ghost predicate KeepsUp(s: System, run: seq<Event>, k: nat)
    requires SystemInv(s) && Plays(s, run)
    decreases run
  {
    run != [] ==>
      && (run[0].Read? && run[0].reader == k ==>
            s.log.received - s.readers[k].pos <= s.log.size - 2 * ChunkSize(s.log.size))
      && (HappenKeepsInv(s, run[0]);
          KeepsUp(Happen(s, run[0]), run[1..], k))
  }

  lemma StepSkipsNothing(s: System, e: Event, k: nat)
    requires SystemInv(s) && Possible(s, e) && k < |s.readers| && s.readers[k].skipped == 0
    requires e.Read? && e.reader == k ==>
      s.log.received - s.readers[k].pos <= s.log.size - 2 * ChunkSize(s.log.size)
    ensures |Happen(s, e).readers| == |s.readers| && Happen(s, e).readers[k].skipped == 0
  {
    if e.Read? {
      ReadKeepsAccount(s.log, s.readers[e.reader], e.n);
    }
  }

  lemma {:induction false} KeepingUpSkipsNothing(s: System, run: seq<Event>, k: nat)
    requires SystemInv(s) && Plays(s, run) && k < |s.readers|
    requires s.readers[k].skipped == 0 && KeepsUp(s, run, k)
    ensures var s' := Outcome(s, run);
      k < |s'.readers| && s'.readers[k].skipped == 0
    decreases run
  {
    if run != [] {
      HappenKeepsInv(s, run[0]);
      StepSkipsNothing(s, run[0], k);
      KeepingUpSkipsNothing(Happen(s, run[0]), run[1..], k);
    }
  }

  /** Strictly increasing positions that fill an interval are consecutive. */
  lemma {:induction false} Consecutive(places: seq<nat>, begin: nat, i: nat)
    requires Increasing(places) && i < |places|
    requires forall j :: 0 <= j < |places| ==> begin <= places[j] < begin + |places|
    ensures places[i] == begin + i
  {
    AtLeast(places, begin, i);
    AtMost(places, begin, i);
  }

  lemma {:induction false} AtLeast(places: seq<nat>, begin: nat, i: nat)
    requires Increasing(places) && i < |places| && begin <= places[0]
    ensures places[i] >= begin + i
  {
    if i > 0 {
      AtLeast(places, begin, i - 1);
    }
  }

  lemma {:induction false} AtMost(places: seq<nat>, begin: nat, i: nat)
    requires Increasing(places) && i < |places|
    requires forall j :: 0 <= j < |places| ==> places[j] < begin + |places|
    ensures places[i] <= begin + i
    decreases |places| - i
  {
    if i + 1 < |places| {
      AtMost(places, begin, i + 1);
    }
  }

  /** What a reader that skipped nothing has been given is a contiguous piece of the stream. */
  lemma UnskippedIsContiguous(stream: seq<byte>, received: nat, r: Reader)
    requires Accounted(stream, received, r) && r.skipped == 0
    ensures r.bytes == stream[r.begin..r.pos]
  {
    forall i | 0 <= i < |r.bytes| ensures r.bytes[i] == stream[r.begin + i] {
      Consecutive(r.places, r.begin, i);
    }
  }

  lemma KeepingUpReadsTheStream(s: System, run: seq<Event>, k: nat)
    requires SystemInv(s) && Plays(s, run) && k < |s.readers|
    requires s.readers[k].skipped == 0 && KeepsUp(s, run, k)
    ensures var s' := Outcome(s, run);
      && k < |s'.readers|
      && var r := s'.readers[k];
      && r.begin <= r.pos <= |s'.log.stream|
      && r.bytes == s'.log.stream[r.begin..r.pos]
  {
    KeepingUpSkipsNothing(s, run, k);
    var s' := Outcome(s, run);
    UnskippedIsContiguous(s'.log.stream, s'.log.received, s'.readers[k]);
  }

  /** Reader k chooses no new position in the run. */
  predicate Stays(run: seq<Event>, k: nat) {
    forall i :: 0 <= i < |run| ==> !(run[i].SeekEnd? && run[i].reader == k) && !(run[i].Rewind? && run[i].reader == k)
  }

  lemma {:induction false} BeginStays(s: System, run: seq<Event>, k: nat)
    requires SystemInv(s) && Plays(s, run) && k < |s.readers| && Stays(run, k)
    ensures k < |Outcome(s, run).readers| && Outcome(s, run).readers[k].begin == s.readers[k].begin
    decreases run
  {
    if run != [] {
      HappenKeepsInv(s, run[0]);
      BeginStays(Happen(s, run[0]), run[1..], k);
    }
  }

  /** A reader that seeks to the end and keeps up is given all output from then on and no earlier byte. */
  lemma SeekEndReadsNewOutput(s: System, k: nat, run: seq<Event>)
    requires SystemInv(s) && k < |s.readers|
    requires SystemInv(Happen(s, SeekEnd(k))) && Plays(Happen(s, SeekEnd(k)), run) && Stays(run, k)
    requires KeepsUp(Happen(s, SeekEnd(k)), run, k)
    ensures var s' := Outcome(Happen(s, SeekEnd(k)), run);
      && k < |s'.readers|
      && s.log.received <= s'.readers[k].pos <= |s'.log.stream|
      && s'.readers[k].bytes == s'.log.stream[s.log.received..s'.readers[k].pos]
  {
    KeepingUpReadsTheStream(Happen(s, SeekEnd(k)), run, k);
    BeginStays(Happen(s, SeekEnd(k)), run, k);
  }
}
