/**
 How a send thread sleeps until the console log has something to read: the
 receive interrupt first advances the log and then posts an event; a thread
 whose read returned nothing waits for the event, and its wait consumes it.

 Several threads may wait for the same event bit.
 */
module Wakeup {

  /** Where a send thread is: looping, after an empty read, or asleep in the wait. */
  datatype Place = Running | Emptied | Asleep

  datatype Thread = Thread(place: Place, pos: nat)

  /**
   received: position the log has advanced to;
   posting:  the interrupt has advanced it and is about to post the event;
   pending:  the event bit is set.
   */
  datatype State = State(received: nat, posting: bool, pending: bool, threads: seq<Thread>)

  datatype Step =
    | Receive(len: nat)
    | Post(keep: bool)
    | ReadSome(t: nat, len: nat)
    | ReadNothing(t: nat)
    | Seek(t: nat, pos: nat)
    | Wait(t: nat)
    | OtherEvent(t: nat)

  function Init(threads: nat): State {
    State(0, false, false, seq(threads, _ => Thread(Running, 0)))
  }

  predicate At(s: State, t: nat, place: Place) {
    t < |s.threads| && s.threads[t].place == place
  }

  predicate Enabled(s: State, e: Step) {
    match e
    case Receive(_) => !s.posting
    case Post(_) => s.posting
    case ReadSome(t, len) => At(s, t, Running) && len > 0 && s.threads[t].pos + len <= s.received
    case ReadNothing(t) => At(s, t, Running) && s.threads[t].pos == s.received
    case Seek(t, pos) => At(s, t, Running) && pos <= s.received
    case Wait(t) => At(s, t, Emptied)
    case OtherEvent(t) => At(s, t, Asleep)
  }

  function Place1(s: State, t: nat, place: Place): State
    requires t < |s.threads|
  {
    s.(threads := s.threads[t := s.threads[t].(place := place)])
  }

  function Wake(th: Thread): Thread {
    if th.place == Asleep then th.(place := Running) else th
  }

  /** Posting wakes every thread asleep on the event; if none was, the bit stays set. */
  function Next(s: State, e: Step): State
    requires Enabled(s, e)
  {
    match e
    case Receive(len) => s.(received := s.received + len, posting := true)
    case Post(keep) =>
      var slept := exists t :: 0 <= t < |s.threads| && s.threads[t].place == Asleep;
      s.(posting := false,
         pending := !slept || keep,
         threads := seq(|s.threads|, i requires 0 <= i < |s.threads| => Wake(s.threads[i])))
    case ReadSome(t, len) => s.(threads := s.threads[t := Thread(Running, s.threads[t].pos + len)])
    case ReadNothing(t) => Place1(s, t, Emptied)
    case Seek(t, pos) => s.(threads := s.threads[t := Thread(Running, pos)])
    case Wait(t) => if s.pending then Place1(s, t, Running).(pending := false) else Place1(s, t, Asleep)
    case OtherEvent(t) => Place1(s, t, Running)
  }

  ghost predicate ValidRun(s: State, run: seq<Step>)
    decreases run
  {
    run != [] ==> Enabled(s, run[0]) && ValidRun(Next(s, run[0]), run[1..])
  }

  function After(s: State, run: seq<Step>): State
    requires ValidRun(s, run)
    decreases run
  {
    if run == [] then s else After(Next(s, run[0]), run[1..])
  }

  /**
   No thread sleeps on data: one that is asleep has read everything or the
   interrupt is about to post; one about to wait may also find the event set.
   */
  ghost predicate NoLostWakeup(s: State) {
    forall t :: 0 <= t < |s.threads| ==>
      var th := s.threads[t];
      && (th.place == Asleep ==> th.pos == s.received || s.posting)
      && (th.place == Emptied ==> th.pos == s.received || s.posting || s.pending)
  }

  lemma StepLosesNoWakeup(s: State, e: Step)
    requires |s.threads| <= 1 && NoLostWakeup(s) && Enabled(s, e)
    ensures |Next(s, e).threads| == |s.threads| && NoLostWakeup(Next(s, e))
  {
  }

  lemma {:induction false} OneThreadLosesNoWakeup(s: State, run: seq<Step>)
    requires |s.threads| <= 1 && NoLostWakeup(s) && ValidRun(s, run)
    ensures NoLostWakeup(After(s, run))
    decreases run
  {
    if run != [] {
      StepLosesNoWakeup(s, run[0]);
      OneThreadLosesNoWakeup(Next(s, run[0]), run[1..]);
    }
  }

  /** Thread 0 finds nothing; data arrives; thread 1 reads it and consumes the event; thread 0 sleeps. */
  function StolenWakeup(): seq<Step> {
    [ReadNothing(0), Receive(1), Post(true), ReadSome(1, 1), ReadNothing(1), Wait(1), Wait(0)]
  }

  lemma {:induction false} AfterStep(s: State, e: Step, rest: seq<Step>)
    requires Enabled(s, e) && ValidRun(Next(s, e), rest)
    ensures ValidRun(s, [e] + rest) && After(s, [e] + rest) == After(Next(s, e), rest)
  {
    assert ([e] + rest)[1..] == rest;
  }

  lemma StolenWakeupLoses(n: nat)
    requires n >= 2
    ensures ValidRun(Init(n), StolenWakeup())
    ensures !NoLostWakeup(After(Init(n), StolenWakeup()))
  {
    var r := StolenWakeup();
    var s0 := Init(n);
    var s1 := Next(s0, r[0]);
    var s2 := Next(s1, r[1]);
    var s3 := Next(s2, r[2]);
    var s4 := Next(s3, r[3]);
    var s5 := Next(s4, r[4]);
    var s6 := Next(s5, r[5]);
    var s7 := Next(s6, r[6]);
    AfterStep(s6, r[6], []);
    AfterStep(s5, r[5], r[6..]);
    AfterStep(s4, r[4], r[5..]);
    AfterStep(s3, r[3], r[4..]);
    AfterStep(s2, r[2], r[3..]);
    AfterStep(s1, r[1], r[2..]);
    AfterStep(s0, r[0], r[1..]);
    assert s7.threads[0] == Thread(Asleep, 0);
  }

  /** The event protocol never leaves a reader asleep on data exactly when one thread uses it. */
  lemma NoLostWakeupIff(n: nat)
    ensures (forall run :: ValidRun(Init(n), run) ==> NoLostWakeup(After(Init(n), run))) <==> n <= 1
  {
    if n <= 1 {
      forall run | ValidRun(Init(n), run) ensures NoLostWakeup(After(Init(n), run)) {
        OneThreadLosesNoWakeup(Init(n), run);
      }
    } else {
      StolenWakeupLoses(n);
    }
  }
}
