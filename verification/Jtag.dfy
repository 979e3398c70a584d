/**
 The JTAG bit-bang server: one byte per command, three output pins, and a cache
 of the last value written to each pin that skips writes of the same value.
 */
module Jtag {

  /** A command or reply as a bit vector, since commands are taken apart with the operator &. */
  type octet = bv8

  /** Levels of the three output pins. */
  datatype Pins = Pins(tck: bool, tms: bool, tdi: bool)

  /** The levels a client connection starts from: TCK and TDI low, TMS high. */
  const ENABLED := Pins(false, true, false)

  /** What a connection shows: the pin levels after every pin operation, and the replies sent. */
  datatype Trace = Trace(wave: seq<Pins>, replies: seq<octet>)

  predicate IsWrite(c: octet) {
    0x30 <= c <= 0x37
  }

  const READ: octet := 0x52
  const QUIT: octet := 0x51

  /** The levels a write command leaves. */
  function Commanded(c: octet): Pins {
    Pins(c & 4 != 0, c & 2 != 0, c & 1 != 0)
  }

  /** Writing all three pins every time, the clock last. */
  function WriteAll(p: Pins, c: octet): seq<Pins> {
    [p.(tms := Commanded(c).tms), Pins(p.tck, Commanded(c).tms, Commanded(c).tdi), Commanded(c)]
  }

  function Reply(high: bool): octet {
    if high then 0x31 else 0x30
  }

  /**
   The reference: no cache. The target's output pin may depend on everything
   the target has seen; the socket may fail at any reply.
   */
  function Uncached(p: Pins, t: Trace, input: seq<octet>, tdo: seq<Pins> -> bool, sends: nat -> bool): Trace
    decreases |input|
  {
    if input == [] then t
    else if IsWrite(input[0]) then
      Uncached(Commanded(input[0]), t.(wave := t.wave + WriteAll(p, input[0])), input[1..], tdo, sends)
    else if input[0] == READ then
      if sends(|t.replies|)
      then Uncached(p, t.(replies := t.replies + [Reply(tdo(t.wave))]), input[1..], tdo, sends)
      else t
    else if input[0] == QUIT then t
    else Uncached(p, t, input[1..], tdo, sends)
  }

  class JtagPort {
    var tckPrev: int
    var tmsPrev: int
    var tdiPrev: int

    // The pins themselves, and their levels after every pin operation.
    var level: Pins
    var wave: seq<Pins>

    /** A cached value, once there is one, is the level of its pin. */
    ghost predicate Cached()
      reads this
    {
      && (tckPrev != -1 ==> level.tck == (tckPrev != 0))
      && (tmsPrev != -1 ==> level.tms == (tmsPrev != 0))
      && (tdiPrev != -1 ==> level.tdi == (tdiPrev != 0))
    }

    method SetTck(state: int)
      requires Cached() && state >= 0
      modifies this`tckPrev, this`level, this`wave
      ensures Cached() && level == old(level).(tck := state != 0) && wave == old(wave) + [level]
    {
      if tckPrev != state {
        level := level.(tck := state != 0);
        tckPrev := state;
      }
      wave := wave + [level];
    }

    method SetTms(state: int)
      requires Cached() && state >= 0
      modifies this`tmsPrev, this`level, this`wave
      ensures Cached() && level == old(level).(tms := state != 0) && wave == old(wave) + [level]
    {
      if tmsPrev != state {
        level := level.(tms := state != 0);
        tmsPrev := state;
      }
      wave := wave + [level];
    }

    method SetTdi(state: int)
      requires Cached() && state >= 0
      modifies this`tdiPrev, this`level, this`wave
      ensures Cached() && level == old(level).(tdi := state != 0) && wave == old(wave) + [level]
    {
      if tdiPrev != state {
        level := level.(tdi := state != 0);
        tdiPrev := state;
      }
      wave := wave + [level];
    }

    /** Configures the pins as outputs at their starting levels and forgets the cache. */
    method JtagPinsEnable()
      modifies this
      ensures Cached() && level == ENABLED == Pins(false, true, false) && wave == []
    {
      level, wave := ENABLED, [];
      tckPrev, tmsPrev, tdiPrev := -1, -1, -1;
    }

    /** One write command. */
    method Write(c: octet)
      requires Cached()
      modifies this
      ensures Cached() && level == Commanded(c) && wave == old(wave) + WriteAll(old(level), c)
    {
      SetTms((c & 2) as int);
      SetTdi((c & 1) as int);
      SetTck((c & 4) as int);
    }

    /**
     A client connection, from enabling the pins to its end. Whatever the
     caches held before, the pins and the replies are those of the reference
     that writes all three pins for every command.
     */
    method HandleClient(input: seq<octet>, tdo: seq<Pins> -> bool, sends: nat -> bool)
      returns (replies: seq<octet>)
      modifies this
      ensures Trace(wave, replies) == Uncached(ENABLED, Trace([], []), input, tdo, sends)
    {
      JtagPinsEnable();
      replies := [];
      var finished := false;
      var k := 0;
      while !finished && k < |input|
        invariant 0 <= k <= |input| && Cached()
        invariant Uncached(ENABLED, Trace([], []), input, tdo, sends)
               == if finished then Trace(wave, replies)
                  else Uncached(level, Trace(wave, replies), input[k..], tdo, sends)
      {
        var c := input[k];
        assert input[k..][0] == c && input[k..][1..] == input[k + 1..];
        k := k + 1;
        if IsWrite(c) {
          Write(c);
        } else if c == READ {
          if sends(|replies|) {
            replies := replies + [Reply(tdo(wave))];
          } else {
            finished := true;
          }
        } else if c == QUIT {
          finished := true;
        }
      }
    }
  }

  /**
   The protocol's characters: '0' to '7' write TCK, TMS and TDI as the bits of
   weight 4, 2 and 1; 'R' reads and 'Q' quits; a reply is '1' or '0'.
   */
  lemma CommandCharacters()
    ensures forall c: octet :: IsWrite(c) <==> c as int in ['0' as int, '1' as int, '2' as int, '3' as int,
                                                            '4' as int, '5' as int, '6' as int, '7' as int]
    ensures Commanded(0x30) == Pins(false, false, false) && Commanded(0x31) == Pins(false, false, true)
    ensures Commanded(0x32) == Pins(false, true, false) && Commanded(0x33) == Pins(false, true, true)
    ensures Commanded(0x34) == Pins(true, false, false) && Commanded(0x35) == Pins(true, false, true)
    ensures Commanded(0x36) == Pins(true, true, false) && Commanded(0x37) == Pins(true, true, true)
    ensures READ as int == 'R' as int && QUIT as int == 'Q' as int
    ensures Reply(true) as int == '1' as int && Reply(false) as int == '0' as int
  {
  }

  // ---------------------------------------------------------------------
  // What the target samples
  // ---------------------------------------------------------------------

  /** TMS and TDI at every rising edge of TCK. */
  function Sampled(p: Pins, wave: seq<Pins>): seq<(bool, bool)>
    decreases |wave|
  {
    if wave == [] then []
    else
      (if !p.tck && wave[0].tck then [(wave[0].tms, wave[0].tdi)] else []) + Sampled(wave[0], wave[1..])
  }

  /** How many bytes a connection consumes: up to a quit or a failed reply, or all. */
  function Consumed(input: seq<octet>, replies: nat, sends: nat -> bool): (n: nat)
    ensures n <= |input|
    decreases |input|
  {
    if input == [] || input[0] == QUIT then 0
    else if input[0] == READ then
      if sends(replies) then 1 + Consumed(input[1..], replies + 1, sends) else 0
    else 1 + Consumed(input[1..], replies, sends)
  }

  /** The write commands among some bytes. */
  function Writes(bytes: seq<octet>): seq<octet>
    decreases |bytes|
  {
    if bytes == [] then []
    else if IsWrite(bytes[0]) then [bytes[0]] + Writes(bytes[1..])
    else Writes(bytes[1..])
  }

  /** The write commands a connection carries out. */
  function Executed(input: seq<octet>, replies: nat, sends: nat -> bool): seq<octet> {
    Writes(input[..Consumed(input, replies, sends)])
  }

  lemma ExecutedStep(input: seq<octet>, replies: nat, sends: nat -> bool)
    requires input != []
    ensures IsWrite(input[0]) ==>
      Executed(input, replies, sends) == [input[0]] + Executed(input[1..], replies, sends)
    ensures input[0] == READ ==>
      Executed(input, replies, sends) == if sends(replies) then Executed(input[1..], replies + 1, sends) else []
    ensures input[0] == QUIT ==> Executed(input, replies, sends) == []
    ensures !IsWrite(input[0]) && input[0] != READ && input[0] != QUIT ==>
      Executed(input, replies, sends) == Executed(input[1..], replies, sends)
  {
    var n := Consumed(input, replies, sends);
    if n > 0 {
      assert input[..n][1..] == input[1..][..n - 1];
    }
  }

  /** The commands that raise the clock, each with its own TMS and TDI bits. */
  function Clocked(tck: bool, writes: seq<octet>): seq<(bool, bool)>
    decreases |writes|
  {
    if writes == [] then []
    else
      var p := Commanded(writes[0]);
      (if !tck && p.tck then [(p.tms, p.tdi)] else []) + Clocked(p.tck, writes[1..])
  }

  lemma {:induction false} SampledSplit(p: Pins, a: seq<Pins>, b: seq<Pins>)
    requires a != []
    ensures Sampled(p, a + b) == Sampled(p, a) + Sampled(a[|a| - 1], b)
    decreases |a|
  {
    assert (a + b)[1..] == a[1..] + b;
    if |a| > 1 {
      SampledSplit(a[0], a[1..], b);
    } else {
      assert a[1..] + b == b;
    }
  }

  lemma SampledWrite(p: Pins, c: octet)
    ensures Sampled(p, WriteAll(p, c)) == if !p.tck && Commanded(c).tck then [(Commanded(c).tms, Commanded(c).tdi)] else []
  {
    var w := WriteAll(p, c);
    assert w[1..][1..] == [w[2]];
    assert [w[2]][1..] == [];
    assert Sampled(w[1], [w[2]]) == if !w[1].tck && w[2].tck then [(w[2].tms, w[2].tdi)] else [];
    assert Sampled(w[0], w[1..]) == Sampled(w[1], [w[2]]);
  }

  lemma SuffixAfter(w: seq<Pins>, x: seq<Pins>, a: seq<Pins>)
    requires x + a <= w
    ensures x <= w && w[|x|..] == a + w[|x + a|..]
  {
    assert w == x + a + w[|x + a|..];
  }

  lemma {:induction false} UncachedExtends(p: Pins, t: Trace, input: seq<octet>,
                                           tdo: seq<Pins> -> bool, sends: nat -> bool)
    ensures var w := Uncached(p, t, input, tdo, sends).wave;
      && t.wave <= w
      && Sampled(p, w[|t.wave|..]) == Clocked(p.tck, Executed(input, |t.replies|, sends))
    decreases |input|
  {
    if input != [] {
      ExecutedStep(input, |t.replies|, sends);
    }
    if input != [] && IsWrite(input[0]) {
      var c, a := input[0], WriteAll(p, input[0]);
      var t' := t.(wave := t.wave + a);
      UncachedExtends(Commanded(c), t', input[1..], tdo, sends);
      var w := Uncached(Commanded(c), t', input[1..], tdo, sends).wave;
      SuffixAfter(w, t.wave, a);
      SampledSplit(p, a, w[|t'.wave|..]);
      SampledWrite(p, c);
      assert ([c] + Executed(input[1..], |t.replies|, sends))[1..] == Executed(input[1..], |t.replies|, sends);
    } else if input != [] && input[0] == READ && sends(|t.replies|) {
      UncachedExtends(p, t.(replies := t.replies + [Reply(tdo(t.wave))]), input[1..], tdo, sends);
    } else if input != [] && input[0] != READ && input[0] != QUIT {
      UncachedExtends(p, t, input[1..], tdo, sends);
    }
  }

  /**
   At every rising clock edge the target samples exactly the TMS and TDI bits
   of the command that caused it: what it samples is a function of the bytes
   the connection consumed. What the target answers has no influence on it.
   */
  lemma TargetSamplesCommands(input: seq<octet>, tdo: seq<Pins> -> bool, sends: nat -> bool)
    ensures Sampled(ENABLED, Uncached(ENABLED, Trace([], []), input, tdo, sends).wave)
         == Clocked(false, Writes(input[..Consumed(input, 0, sends)]))
  {
    UncachedExtends(ENABLED, Trace([], []), input, tdo, sends);
    var w := Uncached(ENABLED, Trace([], []), input, tdo, sends).wave;
    assert w[0..] == w;
  }

  /** The waveform of a series of write commands. */
  function DrivenBy(p: Pins, commands: seq<octet>): seq<Pins>
    decreases |commands|
  {
    if commands == [] then [] else WriteAll(p, commands[0]) + DrivenBy(Commanded(commands[0]), commands[1..])
  }

  /** A connection drives the pins by its write commands and by nothing else. */
  lemma {:induction false} WaveIsCommands(p: Pins, t: Trace, input: seq<octet>,
                                          tdo: seq<Pins> -> bool, sends: nat -> bool)
    ensures Uncached(p, t, input, tdo, sends).wave == t.wave + DrivenBy(p, Executed(input, |t.replies|, sends))
    decreases |input|
  {
    if input != [] {
      ExecutedStep(input, |t.replies|, sends);
    }
    if input != [] && IsWrite(input[0]) {
      var c, a := input[0], WriteAll(p, input[0]);
      var rest := Executed(input[1..], |t.replies|, sends);
      WaveIsCommands(Commanded(c), t.(wave := t.wave + a), input[1..], tdo, sends);
      assert ([c] + rest)[1..] == rest;
      assert (t.wave + a) + DrivenBy(Commanded(c), rest) == t.wave + (a + DrivenBy(Commanded(c), rest));
    } else if input != [] && input[0] == READ && sends(|t.replies|) {
      WaveIsCommands(p, t.(replies := t.replies + [Reply(tdo(t.wave))]), input[1..], tdo, sends);
    } else if input != [] && input[0] != READ && input[0] != QUIT {
      WaveIsCommands(p, t, input[1..], tdo, sends);
    }
  }

  /** A write command sets one pin at a time and the clock last. */
  lemma OnePinAtATime(p: Pins, c: octet)
    ensures var w := WriteAll(p, c);
      && |w| == 3
      && w[0] == p.(tms := c & 2 != 0)
      && w[1] == w[0].(tdi := c & 1 != 0)
      && w[2] == w[1].(tck := c & 4 != 0)
  {
  }

  // ---------------------------------------------------------------------
  // What a read answers
  // ---------------------------------------------------------------------

  function LevelAfter(p: Pins, wave: seq<Pins>): Pins {
    if wave == [] then p else wave[|wave| - 1]
  }

  lemma {:induction false} RepliesExtend(p: Pins, t: Trace, input: seq<octet>,
                                         tdo: seq<Pins> -> bool, sends: nat -> bool)
    ensures t.replies <= Uncached(p, t, input, tdo, sends).replies
    decreases |input|
  {
    if input != [] && IsWrite(input[0]) {
      RepliesExtend(Commanded(input[0]), t.(wave := t.wave + WriteAll(p, input[0])), input[1..], tdo, sends);
    } else if input != [] && input[0] == READ && sends(|t.replies|) {
      RepliesExtend(p, t.(replies := t.replies + [Reply(tdo(t.wave))]), input[1..], tdo, sends);
    } else if input != [] && input[0] != READ && input[0] != QUIT {
      RepliesExtend(p, t, input[1..], tdo, sends);
    }
  }

  /** Input that is consumed whole may be handled first and the rest after it. */
  lemma {:induction false} UncachedSplit(p: Pins, t: Trace, a: seq<octet>, b: seq<octet>,
                                         tdo: seq<Pins> -> bool, sends: nat -> bool)
    requires Consumed(a, |t.replies|, sends) == |a|
    ensures var u := Uncached(p, t, a, tdo, sends);
      && t.wave <= u.wave
      && Uncached(p, t, a + b, tdo, sends) == Uncached(LevelAfter(p, u.wave[|t.wave|..]), u, b, tdo, sends)
    decreases |a|
  {
    UncachedExtends(p, t, a, tdo, sends);
    if a == [] {
      assert a + b == b;
    } else {
      assert (a + b)[1..] == a[1..] + b;
      if IsWrite(a[0]) {
        var t' := t.(wave := t.wave + WriteAll(p, a[0]));
        UncachedSplit(Commanded(a[0]), t', a[1..], b, tdo, sends);
        var u := Uncached(p, t, a, tdo, sends);
        assert LevelAfter(p, u.wave[|t.wave|..]) == LevelAfter(Commanded(a[0]), u.wave[|t'.wave|..]);
      } else if a[0] == READ {
        UncachedSplit(p, t.(replies := t.replies + [Reply(tdo(t.wave))]), a[1..], b, tdo, sends);
      } else {
        UncachedSplit(p, t, a[1..], b, tdo, sends);
      }
    }
  }

  /**
   A read command answers with the level that the target drives after exactly
   the commands before it, and its answer follows theirs.
   */
  lemma ReadAnswersCurrentLevel(a: seq<octet>, b: seq<octet>, tdo: seq<Pins> -> bool, sends: nat -> bool)
    requires Consumed(a, 0, sends) == |a|
    requires sends(|Uncached(ENABLED, Trace([], []), a, tdo, sends).replies|)
    ensures var u := Uncached(ENABLED, Trace([], []), a, tdo, sends);
      u.replies + [Reply(tdo(u.wave))] <= Uncached(ENABLED, Trace([], []), a + ([READ] + b), tdo, sends).replies
  {
    var u := Uncached(ENABLED, Trace([], []), a, tdo, sends);
    UncachedSplit(ENABLED, Trace([], []), a, [READ] + b, tdo, sends);
    var p := LevelAfter(ENABLED, u.wave[0..]);
    assert ([READ] + b)[1..] == b;
    RepliesExtend(p, u.(replies := u.replies + [Reply(tdo(u.wave))]), b, tdo, sends);
  }
}
