/**
 The key/value flash store behind the configuration, and the file system layer
 that retries failing writes. Every call to the store may fail: an oracle fixes
 the answer to each call in advance, and all results hold for every oracle.
 */
module Storage {
  import opened Bytes
  import opened Errno

  /** The keys, numbered as they are stored. */
  type ConfigId = id: int | 1 <= id <= 10 witness 1

  const CFG_VERSION: ConfigId := 1
  const CFG_BMC_ADMIN_PASSWORD: ConfigId := 2
  const CFG_BMC_HOSTNAME: ConfigId := 3
  const CFG_BMC_DEFAULT_IP4: ConfigId := 4
  const CFG_BMC_DEFAULT_IP4_NM: ConfigId := 5
  const CFG_BMC_DEFAULT_IP4_GW: ConfigId := 6
  const CFG_BMC_USE_DHCP4: ConfigId := 7
  const CFG_BMC_USE_NTP: ConfigId := 8
  const CFG_BMC_NTP_SERVER: ConfigId := 9
  const CFG_HOST_AUTO_POWERON: ConfigId := 10

  const FLASH_WRITE_RETRY_COUNT: nat := 3

  type errno = e: int | e < 0 witness -1

  /** Some bytes for every key; place 0 is not used. */
  type Fields = f: seq<seq<byte>> | |f| == 11 witness seq(11, _ => [])

  /** Stored entries. The store records a deletion as an entry of length zero, so [] stands for no entry. */
  type Contents = Fields

  function NoEntries(): Contents {
    seq(11, _ => [])
  }

  /** The answer to one call. A failed erase leaves whatever it leaves. */
  datatype Answer = Ok | Err(code: errno, debris: Contents)

  /**
   kv: what is stored; calls: calls made so far; writes: entries written to
   flash so far; answers: how each call, counted from 0, is answered.
   */
  datatype Device = Device(kv: Contents, calls: nat, writes: nat, answers: nat -> Answer)

  datatype Got = Got(rc: int, data: seq<byte>, dev: Device)
  datatype Done = Done(rc: int, dev: Device)

  function Called(d: Device): Device {
    d.(calls := d.calls + 1)
  }

  function NvsRead(d: Device, id: ConfigId, size: nat): Got {
    match d.answers(d.calls)
    case Err(code, _) => Got(code, [], Called(d))
    case Ok =>
      if d.kv[id] == [] then Got(-ENOENT, [], Called(d))
      else Got(|d.kv[id]|, d.kv[id][..Min(size, |d.kv[id]|)], Called(d))
  }

  /** Writing nothing deletes; writing what is stored does not touch the flash. */
  function NvsWrite(d: Device, id: ConfigId, data: seq<byte>): Done {
    match d.answers(d.calls)
    case Err(code, _) => Done(code, Called(d))
    case Ok =>
      if d.kv[id] == data then Done(0, Called(d))
      else Done(|data|, Called(d).(kv := d.kv[id := data], writes := d.writes + 1))
  }

  function NvsClear(d: Device): Done {
    match d.answers(d.calls)
    case Err(code, debris) => Done(code, Called(d).(kv := debris))
    case Ok => Done(0, Called(d).(kv := NoEntries()))
  }

  /** An entry too long for its field counts as an error. */
  function FsRead(d: Device, id: ConfigId, size: nat): Got {
    var g := NvsRead(d, id, size);
    if g.rc > size then g.(rc := -EINVAL) else g
  }

  function FsWrite(d: Device, id: ConfigId, data: seq<byte>, retries: nat := 0): Done
    requires retries <= FLASH_WRITE_RETRY_COUNT
    decreases FLASH_WRITE_RETRY_COUNT - retries
  {
    var w := NvsWrite(d, id, data);
    if w.rc == -EIO && retries < FLASH_WRITE_RETRY_COUNT then FsWrite(w.dev, id, data, retries + 1)
    else if w.rc == 0 then w.(rc := |data|)
    else w
  }

  function FsClear(d: Device, retries: nat := 0): Done
    requires retries <= FLASH_WRITE_RETRY_COUNT
    decreases FLASH_WRITE_RETRY_COUNT - retries
  {
    var c := NvsClear(d);
    if c.rc != 0 && c.rc == -EIO && retries < FLASH_WRITE_RETRY_COUNT then FsClear(c.dev, retries + 1) else c
  }

  // ---------------------------------------------------------------------
  // Bounded retry
  // ---------------------------------------------------------------------

  predicate FailsWithEio(answers: nat -> Answer, call: nat) {
    answers(call).Err? && answers(call).code == -EIO
  }

  /** The number of attempts a write or clear makes whose first is the given call. */
  function Attempts(answers: nat -> Answer, call: nat, retries: nat): nat
    requires retries <= FLASH_WRITE_RETRY_COUNT
    decreases FLASH_WRITE_RETRY_COUNT - retries
  {
    if FailsWithEio(answers, call) && retries < FLASH_WRITE_RETRY_COUNT
    then 1 + Attempts(answers, call + 1, retries + 1) else 1
  }

  /** At most four attempts; all but the last failed with EIO, and so did the last only if it was the fourth. */
  lemma {:induction false} AttemptsBounded(answers: nat -> Answer, call: nat, retries: nat)
    requires retries <= FLASH_WRITE_RETRY_COUNT
    ensures var n := Attempts(answers, call, retries);
      && 1 <= n <= 4 - retries
      && (forall k :: call <= k < call + n - 1 ==> answers(k).Err? && answers(k).code == -5)
      && (answers(call + n - 1).Err? && answers(call + n - 1).code == -5 ==> n == 4 - retries)
    decreases FLASH_WRITE_RETRY_COUNT - retries
  {
    if FailsWithEio(answers, call) && retries < FLASH_WRITE_RETRY_COUNT {
      AttemptsBounded(answers, call + 1, retries + 1);
    }
  }

  lemma OneWrite(d: Device, id: ConfigId, data: seq<byte>)
    ensures var w := NvsWrite(d, id, data);
      && w.dev.calls == d.calls + 1 && w.dev.answers == d.answers
      && (d.answers(d.calls).Ok? ==> (w.rc == 0 || w.rc == |data|) && w.dev.kv == d.kv[id := data])
      && (d.answers(d.calls).Err? ==> w == Done(d.answers(d.calls).code, Called(d)))
  {
    if d.kv[id] == data {
      assert d.kv[id := data] == d.kv;
    }
  }

  /** w is what a write that started at d ends with when the given call was its last attempt. */
  ghost predicate WriteOutcome(d: Device, last: nat, id: ConfigId, data: seq<byte>, w: Done) {
    && w.dev.calls == last + 1 && w.dev.answers == d.answers
    && (d.answers(last).Ok? ==> w.rc == |data| && w.dev.kv == d.kv[id := data])
    && (d.answers(last).Err? ==> w.rc == d.answers(last).code && w.dev.kv == d.kv && w.dev.writes == d.writes)
  }

  ghost predicate ClearOutcome(d: Device, last: nat, c: Done) {
    && c.dev.calls == last + 1 && c.dev.answers == d.answers && c.dev.writes == d.writes
    && (d.answers(last).Ok? ==> c.rc == 0 && c.dev.kv == NoEntries())
    && (d.answers(last).Err? ==> c.rc == d.answers(last).code && c.dev.kv == d.answers(last).debris)
  }

  function LastAttempt(d: Device, retries: nat): nat
    requires retries <= FLASH_WRITE_RETRY_COUNT
  {
    d.calls + Attempts(d.answers, d.calls, retries) - 1
  }

  /** A write with retries is a single write at its last attempt. */
  lemma {:induction false} OnlyLastAttemptCounts(d: Device, id: ConfigId, data: seq<byte>, retries: nat)
    requires retries <= FLASH_WRITE_RETRY_COUNT
    ensures FsWrite(d, id, data, retries) ==
            FsWrite(d.(calls := LastAttempt(d, retries)), id, data, FLASH_WRITE_RETRY_COUNT)
    decreases FLASH_WRITE_RETRY_COUNT - retries
  {
    if FailsWithEio(d.answers, d.calls) && retries < FLASH_WRITE_RETRY_COUNT {
      OnlyLastAttemptCounts(Called(d), id, data, retries + 1);
      assert LastAttempt(d, retries) == LastAttempt(Called(d), retries + 1);
    }
  }

  /**
   A write stores the entry exactly when its last attempt is answered, and
   otherwise returns that attempt's error with the store as it was.
   */
  lemma WriteIsLastAttempt(d: Device, id: ConfigId, data: seq<byte>, retries: nat)
    requires retries <= FLASH_WRITE_RETRY_COUNT
    ensures WriteOutcome(d, LastAttempt(d, retries), id, data, FsWrite(d, id, data, retries))
  {
    OnlyLastAttemptCounts(d, id, data, retries);
    OneWrite(d.(calls := LastAttempt(d, retries)), id, data);
  }

  /** A clear empties the store exactly when its last attempt is answered. */
  lemma {:induction false} ClearIsLastAttempt(d: Device, retries: nat)
    requires retries <= FLASH_WRITE_RETRY_COUNT
    ensures ClearOutcome(d, LastAttempt(d, retries), FsClear(d, retries))
    decreases FLASH_WRITE_RETRY_COUNT - retries
  {
    if FailsWithEio(d.answers, d.calls) && retries < FLASH_WRITE_RETRY_COUNT {
      var d1 := NvsClear(d).dev;
      ClearIsLastAttempt(d1, retries + 1);
      assert LastAttempt(d, retries) == LastAttempt(d1, retries + 1);
    }
  }
}
