/**
 The persistent configuration: ten fields kept in memory and written through
 to the key/value store, read back at boot with defaults for what is missing.

 A field is modelled by its bytes: one byte for flags and the version, four for
 addresses, and the characters before the terminator for strings.
 */
module Config {
  import opened Bytes
  import opened Errno
  import opened Storage

  /** What the configuration starts from when nothing is stored. */
  datatype Defaults = Defaults(password: seq<byte>, hostname: seq<byte>)

  /** ram: the fields in memory; useFs: whether the store is in use; fsEnabled: whether it is mounted. */
  datatype State = State(ram: Fields, useFs: bool, fsEnabled: bool, dev: Device)

  const CFG_CURRENT_VERSION: seq<byte> := [3]

  /** "pool.ntp.org" */
  const DEFAULT_NTP_SERVER: seq<byte> := [112, 111, 111, 108, 46, 110, 116, 112, 46, 111, 114, 103]

  predicate IsString(id: ConfigId) {
    id == CFG_BMC_ADMIN_PASSWORD || id == CFG_BMC_HOSTNAME || id == CFG_BMC_NTP_SERVER
  }

  predicate IsAddress(id: ConfigId) {
    id == CFG_BMC_DEFAULT_IP4 || id == CFG_BMC_DEFAULT_IP4_NM || id == CFG_BMC_DEFAULT_IP4_GW
  }

  predicate IsFlag(id: ConfigId) {
    id == CFG_BMC_USE_DHCP4 || id == CFG_BMC_USE_NTP || id == CFG_HOST_AUTO_POWERON
  }

  /** Bytes of a fixed field; most characters of a string. */
  function Width(id: ConfigId): nat {
    if id == CFG_BMC_NTP_SERVER then 40
    else if IsString(id) then 20
    else if IsAddress(id) then 4
    else 1
  }

  function Zeros(n: nat): seq<byte> {
    seq(n, _ => 0)
  }

  /** The characters before the first NUL. */
  function CStr(s: seq<byte>): seq<byte> {
    if s == [] || s[0] == 0 then [] else [s[0]] + CStr(s[1..])
  }

  predicate NulFree(s: seq<byte>) {
    forall k :: 0 <= k < |s| ==> s[k] != 0
  }

  /** strlcpy into a field. */
  function Truncate(id: ConfigId, s: seq<byte>): seq<byte> {
    s[..Min(|s|, Width(id))]
  }

  /** The field after reading stored bytes over zeroed memory. */
  function Decode(id: ConfigId, data: seq<byte>): seq<byte>
    requires |data| <= Width(id)
  {
    if IsString(id) then CStr(data) else data + Zeros(Width(id) - |data|)
  }

  /** Bytes a field can hold. */
  predicate Fits(id: ConfigId, v: seq<byte>) {
    if IsString(id) then |v| <= Width(id) && NulFree(v) else |v| == Width(id)
  }

  predicate SaneDefaults(d: Defaults) {
    NulFree(d.password) && 0 < |d.password| <= 20 && NulFree(d.hostname) && 0 < |d.hostname|
  }

  function Default(d: Defaults, id: ConfigId): seq<byte> {
    if id == CFG_VERSION then CFG_CURRENT_VERSION
    else if id == CFG_BMC_ADMIN_PASSWORD then Truncate(id, d.password)
    else if id == CFG_BMC_HOSTNAME then Truncate(id, d.hostname)
    else if id == CFG_BMC_NTP_SERVER then Truncate(id, DEFAULT_NTP_SERVER)
    else if IsAddress(id) then Zeros(4)
    else if id == CFG_HOST_AUTO_POWERON then [0]
    else [1]
  }

  // ---------------------------------------------------------------------
  // Reading, writing and booting
  // ---------------------------------------------------------------------

  function ConfigRead(s: State, id: ConfigId): Got {
    if s.useFs && s.fsEnabled then FsRead(s.dev, id, Width(id)) else Got(-ENODEV, [], s.dev)
  }

  function ConfigWrite(s: State, id: ConfigId): Done {
    if s.useFs && s.fsEnabled then FsWrite(s.dev, id, s.ram[id]) else Done(-ENODEV, s.dev)
  }

  /** The version check: may adopt, stamp or erase the store, or give up on it. */
  function VersionStage(s: State): State {
    if !s.fsEnabled then s
    else
      var s1 := s.(useFs := true);
      var g := ConfigRead(s1, CFG_VERSION);
      if g.rc < 0 then Stamp(s1.(dev := g.dev))
      else
        var s2 := s1.(dev := g.dev, ram := s1.ram[CFG_VERSION := Decode(CFG_VERSION, g.data)]);
        if s2.ram[CFG_VERSION] != CFG_CURRENT_VERSION then Erase(s2) else s2
  }

  /** Clear the store and stamp it, and stop using it if either fails. */
  function Erase(s: State): State {
    var c := FsClear(s.dev);
    if c.rc == 0 then Stamp(s.(dev := c.dev)) else s.(dev := c.dev, useFs := c.rc >= 0)
  }

  /** Write the current version, and stop using the store if that fails. */
  function Stamp(s: State): State {
    var s1 := s.(ram := s.ram[CFG_VERSION := CFG_CURRENT_VERSION]);
    var w := ConfigWrite(s1, CFG_VERSION);
    s1.(dev := w.dev, useFs := s1.useFs && w.rc >= 0)
  }

  /** Load one field; give it its default and write that back if it cannot be read. */
  function LoadField(s: State, d: Defaults, id: ConfigId): State {
    var g := ConfigRead(s, id);
    if g.rc < 0 then
      var s1 := s.(dev := g.dev, ram := s.ram[id := Default(d, id)]);
      s1.(dev := ConfigWrite(s1, id).dev)
    else s.(dev := g.dev, ram := s.ram[id := Decode(id, g.data)])
  }

  const FIELDS: seq<ConfigId> :=
    [CFG_BMC_ADMIN_PASSWORD, CFG_BMC_HOSTNAME, CFG_BMC_DEFAULT_IP4, CFG_BMC_DEFAULT_IP4_NM, CFG_BMC_DEFAULT_IP4_GW,
     CFG_BMC_USE_DHCP4, CFG_BMC_USE_NTP, CFG_BMC_NTP_SERVER, CFG_HOST_AUTO_POWERON]

  function LoadFields(s: State, d: Defaults, ids: seq<ConfigId>): State
    decreases ids
  {
    if ids == [] then s else LoadFields(LoadField(s, d, ids[0]), d, ids[1..])
  }

  function ZeroRam(): Fields {
    seq(11, k requires 0 <= k < 11 => if k == 0 || IsString(k) then [] else Zeros(Width(k)))
  }

  function Boot(s: State, d: Defaults): State {
    LoadFields(VersionStage(s.(ram := ZeroRam())), d, FIELDS)
  }

  // ---------------------------------------------------------------------
  // Setters
  // ---------------------------------------------------------------------

  /** An address argument: none, one that does not parse, or four bytes. */
  datatype Address = NoAddress | BadAddress | Address(bytes: seq<byte>)

  /**
   A setter call. `applied` is what applying the new value to the network
   returns, `restarted` what restarting time synchronisation returns.
   */
  datatype Request =
    | SetHostname(name: seq<byte>, applied: int)
    | SetAddress(id: ConfigId, address: Address, applied: int)
    | SetFlag(id: ConfigId, on: bool)
    | SetNtpServer(name: seq<byte>, restarted: int)
    | SetPassword(password: seq<byte>)

  /** Arguments a caller can pass: C strings, four-byte addresses, keys of the right kind. */
  predicate WellFormed(r: Request) {
    match r
    case SetHostname(name, _) => NulFree(name)
    case SetAddress(id, a, _) => IsAddress(id) && (a.Address? ==> |a.bytes| == 4)
    case SetFlag(id, _) => IsFlag(id)
    case SetNtpServer(name, _) => NulFree(name)
    case SetPassword(password) => NulFree(password)
  }

  function Target(r: Request): ConfigId {
    match r
    case SetHostname(_, _) => CFG_BMC_HOSTNAME
    case SetAddress(id, _, _) => id
    case SetFlag(id, _) => id
    case SetNtpServer(_, _) => CFG_BMC_NTP_SERVER
    case SetPassword(_) => CFG_BMC_ADMIN_PASSWORD
  }

  datatype Reply = Reply(ret: int, state: State)

  function SaveField(s: State, id: ConfigId): Reply {
    var w := ConfigWrite(s, id);
    Reply(if w.rc < 0 then w.rc else 0, s.(dev := w.dev))
  }

  function FlagValue(on: bool): seq<byte> {
    if on then [1] else [0]
  }

  function Handle(s: State, r: Request): Reply {
    match r
    case SetHostname(name, applied) =>
      if applied != 0 then Reply(applied, s)
      else SaveField(s.(ram := s.ram[CFG_BMC_HOSTNAME := Truncate(CFG_BMC_HOSTNAME, name)]), CFG_BMC_HOSTNAME)
    case SetAddress(id, address, applied) =>
      if address.BadAddress? then Reply(-EINVAL, s)
      else
        var s1 := s.(ram := s.ram[id := if address.NoAddress? then Zeros(4) else address.bytes]);
        if applied != 0 then Reply(applied, s1) else SaveField(s1, id)
    case SetFlag(id, on) =>
      if s.ram[id] == FlagValue(on) then Reply(0, s)
      else SaveField(s.(ram := s.ram[id := FlagValue(on)]), id)
    case SetNtpServer(name, restarted) =>
      var saved := SaveField(s.(ram := s.ram[CFG_BMC_NTP_SERVER := Truncate(CFG_BMC_NTP_SERVER, name)]), CFG_BMC_NTP_SERVER);
      if saved.ret < 0 then saved
      else if saved.state.ram[CFG_BMC_USE_NTP] != [0] && restarted < 0 then saved.(ret := restarted)
      else saved
    case SetPassword(password) =>
      if |password| > Width(CFG_BMC_ADMIN_PASSWORD) then Reply(-EINVAL, s)
      else SaveField(s.(ram := s.ram[CFG_BMC_ADMIN_PASSWORD := Truncate(CFG_BMC_ADMIN_PASSWORD, password)]), CFG_BMC_ADMIN_PASSWORD)
  }

  // ---------------------------------------------------------------------
  // Agreement of memory and store
  // ---------------------------------------------------------------------

  /** An entry the next boot will accept. */
  predicate Readable(kv: Contents, id: ConfigId) {
    0 < |kv[id]| <= Width(id)
  }

  /** Reading the stored entry gives the field in memory. */
  predicate Agrees(s: State, id: ConfigId) {
    Readable(s.dev.kv, id) && Decode(id, s.dev.kv[id]) == s.ram[id]
  }

  ghost predicate AllAgree(s: State) {
    forall id: ConfigId :: Agrees(s, id)
  }

  ghost predicate AllFit(s: State) {
    forall id: ConfigId :: Fits(id, s.ram[id])
  }

  ghost predicate NoFaultsFrom(d: Device, call: nat) {
    forall k :: k >= call ==> d.answers(k).Ok?
  }

  lemma {:induction false} CStrBasics(s: seq<byte>)
    ensures NulFree(CStr(s)) && CStr(s) <= s
    ensures |CStr(s)| < |s| ==> s[|CStr(s)|] == 0
    ensures NulFree(s) ==> CStr(s) == s
  {
    if s != [] && s[0] != 0 {
      CStrBasics(s[1..]);
      assert s == [s[0]] + s[1..];
      if NulFree(s) {
        assert forall k :: 0 <= k < |s[1..]| ==> s[1..][k] == s[k + 1];
        assert CStr(s) == [s[0]] + s[1..];
      }
    }
  }

  lemma DecodeFits(id: ConfigId, data: seq<byte>)
    requires |data| <= Width(id)
    ensures Fits(id, Decode(id, data))
    ensures !IsString(id) ==> forall k :: 0 <= k < Width(id) ==> Decode(id, data)[k] == if k < |data| then data[k] else 0
  {
    CStrBasics(data);
  }

  /** A field written and read back is the same field. */
  lemma DecodeEncoded(id: ConfigId, v: seq<byte>)
    requires Fits(id, v)
    ensures |v| <= Width(id) && Decode(id, v) == v
  {
    CStrBasics(v);
    assert v + [] == v;
  }

  lemma DefaultFits(d: Defaults, id: ConfigId)
    requires SaneDefaults(d)
    ensures Fits(id, Default(d, id)) && Default(d, id) != []
  {
  }

  // ---------------------------------------------------------------------
  // Booting
  // ---------------------------------------------------------------------

  lemma ReadWithoutFault(s: State, id: ConfigId)
    requires s.useFs && s.fsEnabled && s.dev.answers(s.dev.calls).Ok?
    ensures var g := ConfigRead(s, id);
      && g.dev == Called(s.dev)
      && (g.rc >= 0 <==> Readable(s.dev.kv, id))
      && (g.rc >= 0 ==> g.data == s.dev.kv[id])
  {
  }

  /** What a write through the file system layer does, whatever fails. */
  lemma WriteResult(s: State, id: ConfigId)
    requires s.useFs && s.fsEnabled
    ensures var w := ConfigWrite(s, id);
      && w.dev.answers == s.dev.answers && w.dev.calls > s.dev.calls
      && (w.rc < 0 ==> w.dev.kv == s.dev.kv)
      && (w.rc >= 0 ==> w.dev.kv == s.dev.kv[id := s.ram[id]])
      && (s.dev.answers(s.dev.calls).Ok? ==> w.rc >= 0)
  {
    WriteIsLastAttempt(s.dev, id, s.ram[id], 0);
  }

  /** The value boot gives a field, when nothing fails. */
  function BootValue(kv: Contents, d: Defaults, id: ConfigId): seq<byte> {
    if Readable(kv, id) then Decode(id, kv[id]) else Default(d, id)
  }

  /** The store after boot has loaded a field, when nothing fails. */
  function BootEntry(kv: Contents, d: Defaults, id: ConfigId): seq<byte> {
    if Readable(kv, id) then kv[id] else Default(d, id)
  }

  lemma BootEntryReadsBack(kv: Contents, d: Defaults, id: ConfigId)
    requires SaneDefaults(d)
    ensures 0 < |BootEntry(kv, d, id)| <= Width(id)
    ensures Decode(id, BootEntry(kv, d, id)) == BootValue(kv, d, id)
    ensures Fits(id, BootValue(kv, d, id))
  {
    if Readable(kv, id) {
      DecodeFits(id, kv[id]);
    } else {
      DefaultFits(d, id);
      DecodeEncoded(id, Default(d, id));
    }
  }

  predicate Ready(s: State) {
    s.useFs && s.fsEnabled
  }

  lemma LoadReadable(s: State, d: Defaults, id: ConfigId)
    requires Ready(s) && NoFaultsFrom(s.dev, s.dev.calls) && Readable(s.dev.kv, id)
    ensures LoadField(s, d, id) == s.(dev := Called(s.dev), ram := s.ram[id := Decode(id, s.dev.kv[id])])
  {
    ReadWithoutFault(s, id);
  }

  lemma LoadMissing(s: State, d: Defaults, id: ConfigId)
    requires Ready(s) && NoFaultsFrom(s.dev, s.dev.calls) && !Readable(s.dev.kv, id)
    ensures var s' := LoadField(s, d, id);
      && Ready(s') && s'.dev.answers == s.dev.answers && s'.dev.calls >= s.dev.calls
      && s'.ram == s.ram[id := Default(d, id)]
      && s'.dev.kv == s.dev.kv[id := Default(d, id)]
  {
    ReadWithoutFault(s, id);
    WriteResult(s.(dev := Called(s.dev), ram := s.ram[id := Default(d, id)]), id);
  }

  lemma LoadFieldOk(s: State, d: Defaults, id: ConfigId)
    requires Ready(s) && NoFaultsFrom(s.dev, s.dev.calls)
    ensures var s' := LoadField(s, d, id);
      && Ready(s') && NoFaultsFrom(s'.dev, s'.dev.calls)
      && s'.ram == s.ram[id := BootValue(s.dev.kv, d, id)]
      && s'.dev.kv == s.dev.kv[id := BootEntry(s.dev.kv, d, id)]
      && (Readable(s.dev.kv, id) ==> s'.dev.writes == s.dev.writes)
  {
    if Readable(s.dev.kv, id) {
      LoadReadable(s, d, id);
      assert s.dev.kv[id := s.dev.kv[id]] == s.dev.kv;
    } else {
      LoadMissing(s, d, id);
    }
  }

  /**
   Whatever fails: the field is what is stored if that was read and fits, else
   its default; and the default replaces the entry exactly when the last attempt
   at writing it back is answered.
   */
  lemma LoadFieldWhateverFails(s: State, d: Defaults, id: ConfigId)
    requires Ready(s)
    ensures var s', last := LoadField(s, d, id), LastFrom(s.dev.answers, s.dev.calls + 1);
      if s.dev.answers(s.dev.calls).Ok? && Readable(s.dev.kv, id) then
        s'.ram == s.ram[id := Decode(id, s.dev.kv[id])] && s'.dev.kv == s.dev.kv && s'.dev.writes == s.dev.writes
      else
        && s'.ram == s.ram[id := Default(d, id)]
        && s'.dev.kv == if s.dev.answers(last).Ok? then s.dev.kv[id := Default(d, id)] else s.dev.kv
  {
    if s.dev.answers(s.dev.calls).Ok? && Readable(s.dev.kv, id) {
      ReadWithoutFault(s, id);
    } else {
      WriteIsLastAttempt(ConfigRead(s, id).dev, id, Default(d, id), 0);
    }
  }

  ghost predicate NoDuplicates(ids: seq<ConfigId>) {
    forall i, j :: 0 <= i < j < |ids| ==> ids[i] != ids[j]
  }

  /** What boot makes of one field and its entry, when nothing fails. */
  lemma {:induction false} LoadFieldsAt(s: State, d: Defaults, ids: seq<ConfigId>, id: ConfigId)
    requires Ready(s) && NoFaultsFrom(s.dev, s.dev.calls) && NoDuplicates(ids)
    ensures var s' := LoadFields(s, d, ids);
      && Ready(s') && NoFaultsFrom(s'.dev, s'.dev.calls)
      && s'.ram[id] == (if id in ids then BootValue(s.dev.kv, d, id) else s.ram[id])
      && s'.dev.kv[id] == (if id in ids then BootEntry(s.dev.kv, d, id) else s.dev.kv[id])
    decreases ids
  {
    if ids != [] {
      LoadFieldOk(s, d, ids[0]);
      LoadFieldsAt(LoadField(s, d, ids[0]), d, ids[1..], id);
      assert id in ids <==> id == ids[0] || id in ids[1..];
    }
  }

  /** Loading fields that are all readable writes nothing. */
  lemma {:induction false} LoadFieldsQuiet(s: State, d: Defaults, ids: seq<ConfigId>)
    requires Ready(s) && NoFaultsFrom(s.dev, s.dev.calls)
    requires forall id: ConfigId :: id in ids ==> Readable(s.dev.kv, id)
    ensures LoadFields(s, d, ids).dev.kv == s.dev.kv
    ensures LoadFields(s, d, ids).dev.writes == s.dev.writes
    decreases ids
  {
    if ids != [] {
      LoadReadable(s, d, ids[0]);
      LoadFieldsQuiet(LoadField(s, d, ids[0]), d, ids[1..]);
    }
  }

  /** Without the store every field gets its default, and the store is left alone. */
  lemma {:induction false} LoadFieldsWithoutStore(s: State, d: Defaults, ids: seq<ConfigId>)
    requires !Ready(s)
    ensures var s' := LoadFields(s, d, ids);
      && s'.dev == s.dev && !Ready(s')
      && (forall id: ConfigId :: s'.ram[id] == if id in ids then Default(d, id) else s.ram[id])
    decreases ids
  {
    if ids != [] {
      LoadFieldsWithoutStore(LoadField(s, d, ids[0]), d, ids[1..]);
      assert ids == [ids[0]] + ids[1..];
    }
  }

  /** Fields with no entry get their defaults whatever fails. */
  lemma {:induction false} LoadFieldsFromNothing(s: State, d: Defaults, ids: seq<ConfigId>)
    requires Ready(s) && NoDuplicates(ids)
    requires forall id: ConfigId :: id in ids ==> s.dev.kv[id] == []
    ensures forall id: ConfigId :: id in ids ==> LoadFields(s, d, ids).ram[id] == Default(d, id)
    ensures forall id: ConfigId :: id !in ids ==> LoadFields(s, d, ids).ram[id] == s.ram[id]
    decreases ids
  {
    if ids != [] {
      var s1 := LoadField(s, d, ids[0]);
      LoadMissingWhateverFails(s, d, ids[0]);
      LoadFieldsFromNothing(s1, d, ids[1..]);
      assert ids == [ids[0]] + ids[1..];
    }
  }

  lemma LoadMissingWhateverFails(s: State, d: Defaults, id: ConfigId)
    requires Ready(s) && s.dev.kv[id] == []
    ensures var s' := LoadField(s, d, id);
      && Ready(s') && s'.ram == s.ram[id := Default(d, id)]
      && (forall other: ConfigId :: other != id ==> s'.dev.kv[other] == s.dev.kv[other])
  {
    WriteResult(s.(dev := ConfigRead(s, id).dev, ram := s.ram[id := Default(d, id)]), id);
  }

  lemma FieldsAreAllButVersion(id: ConfigId)
    ensures NoDuplicates(FIELDS)
    ensures id in FIELDS <==> id != CFG_VERSION
  {
    assert FIELDS[0] == 2 && FIELDS[1] == 3 && FIELDS[2] == 4 && FIELDS[3] == 5 && FIELDS[4] == 6
        && FIELDS[5] == 7 && FIELDS[6] == 8 && FIELDS[7] == 9 && FIELDS[8] == 10;
  }

  /** A readable version other than the current one: the store is to be erased. */
  predicate Mismatch(s: State) {
    var g := ConfigRead(s.(useFs := true), CFG_VERSION);
    s.fsEnabled && g.rc >= 0 && Decode(CFG_VERSION, g.data) != CFG_CURRENT_VERSION
  }

  lemma StampResult(s: State)
    requires Ready(s)
    ensures var s' := Stamp(s);
      && s'.fsEnabled && s'.ram == s.ram[CFG_VERSION := CFG_CURRENT_VERSION]
      && s'.dev.answers == s.dev.answers
      && (s'.useFs ==> s'.dev.kv == s.dev.kv[CFG_VERSION := CFG_CURRENT_VERSION])
  {
    WriteResult(s.(ram := s.ram[CFG_VERSION := CFG_CURRENT_VERSION]), CFG_VERSION);
  }

  /** The version stage, if it succeeds, leaves the current version and the old entries or none. */
  lemma VersionStageResult(s: State)
    requires s.fsEnabled
    ensures var v := VersionStage(s);
      && v.fsEnabled && v.dev.answers == s.dev.answers
      && (v.useFs ==>
            && v.ram == s.ram[CFG_VERSION := CFG_CURRENT_VERSION]
            && v.dev.kv == (if Mismatch(s) then NoEntries() else s.dev.kv)[CFG_VERSION := CFG_CURRENT_VERSION])
  {
    var s1 := s.(useFs := true);
    var g := ConfigRead(s1, CFG_VERSION);
    if g.rc < 0 {
      StampResult(s1.(dev := g.dev));
    } else {
      assert g.data == s.dev.kv[CFG_VERSION] && |g.data| == 1;
      var s2 := s1.(dev := g.dev, ram := s1.ram[CFG_VERSION := Decode(CFG_VERSION, g.data)]);
      assert s2.ram[CFG_VERSION] == s.dev.kv[CFG_VERSION];
      if Mismatch(s) {
        ClearIsLastAttempt(s2.dev, 0);
        StampResult(s2.(dev := FsClear(s2.dev).dev));
      }
    }
  }

  /** Whether a stored version can be read. */
  predicate VersionReadable(d: Device) {
    d.answers(d.calls).Ok? && Readable(d.kv, CFG_VERSION)
  }

  /** The number of the last attempt of a clear or write whose first attempt is the given call. */
  function LastFrom(answers: nat -> Answer, call: nat): nat {
    call + Attempts(answers, call, 0) - 1
  }

  /** The last attempt of the version stage's first write or clear, and of the stamp after a clear. */
  function FirstLast(d: Device): nat {
    LastFrom(d.answers, d.calls + 1)
  }

  function SecondLast(d: Device): nat {
    LastFrom(d.answers, FirstLast(d) + 1)
  }

  /**
   Every call that the version stage needs is answered: the last attempt at
   stamping a missing or unreadable version; the last attempts at clearing and
   then stamping on a mismatch; nothing more when the version is current.
   */
  predicate StageAnswered(d: Device) {
    if !VersionReadable(d) then d.answers(FirstLast(d)).Ok?
    else d.kv[CFG_VERSION] == CFG_CURRENT_VERSION || (d.answers(FirstLast(d)).Ok? && d.answers(SecondLast(d)).Ok?)
  }

  /** The first call after a version stage that succeeds. */
  function StageEnd(d: Device): nat {
    if !VersionReadable(d) then FirstLast(d) + 1
    else if d.kv[CFG_VERSION] == CFG_CURRENT_VERSION then d.calls + 1
    else SecondLast(d) + 1
  }

  lemma StampIff(s: State)
    requires Ready(s)
    ensures var last := LastFrom(s.dev.answers, s.dev.calls);
      && (Stamp(s).useFs <==> s.dev.answers(last).Ok?)
      && Stamp(s).dev.calls == last + 1 && Stamp(s).fsEnabled
  {
    WriteIsLastAttempt(s.dev, CFG_VERSION, CFG_CURRENT_VERSION, 0);
  }

  lemma EraseIff(s: State)
    requires Ready(s)
    ensures var first := LastFrom(s.dev.answers, s.dev.calls);
      var second := LastFrom(s.dev.answers, first + 1);
      && (Ready(Erase(s)) <==> s.dev.answers(first).Ok? && s.dev.answers(second).Ok?)
      && (Ready(Erase(s)) ==> Erase(s).dev.calls == second + 1)
  {
    var c := FsClear(s.dev);
    ClearIsLastAttempt(s.dev, 0);
    if c.rc == 0 {
      StampIff(s.(dev := c.dev));
    }
  }

  /** The state in which the version stage erases the store after a mismatch. */
  function AtErase(s: State): State {
    s.(useFs := true, dev := Called(s.dev), ram := s.ram[CFG_VERSION := s.dev.kv[CFG_VERSION]])
  }

  lemma MismatchErases(s: State)
    requires s.fsEnabled && VersionReadable(s.dev) && s.dev.kv[CFG_VERSION] != CFG_CURRENT_VERSION
    ensures VersionStage(s) == Erase(AtErase(s))
  {
    ReadWithoutFault(s.(useFs := true), CFG_VERSION);
    assert Decode(CFG_VERSION, s.dev.kv[CFG_VERSION]) == s.dev.kv[CFG_VERSION];
  }

  /** The version stage succeeds exactly when every store call it needs is answered. */
  lemma VersionStageSucceedsIff(s: State)
    requires s.fsEnabled
    ensures Ready(VersionStage(s)) <==> StageAnswered(s.dev)
    ensures StageAnswered(s.dev) ==> VersionStage(s).dev.calls == StageEnd(s.dev)
  {
    var s1 := s.(useFs := true);
    var g := ConfigRead(s1, CFG_VERSION);
    if g.rc < 0 {
      StampIff(s1.(dev := g.dev));
    } else if s.dev.kv[CFG_VERSION] == CFG_CURRENT_VERSION {
      assert Decode(CFG_VERSION, g.data) == s.dev.kv[CFG_VERSION];
    } else {
      MismatchErases(s);
      EraseIff(AtErase(s));
    }
  }

  /**
   Boot from any store contents, if every call the version stage needs is
   answered and no later call fails: every key is present and agrees with memory. A field keeps
   its old value exactly when its entry fits and the version did not mismatch;
   an unreadable version does not by itself discard the old fields.
   */
  lemma BootFromAnything(s: State, d: Defaults)
    requires s.fsEnabled && SaneDefaults(d)
    requires StageAnswered(s.dev) && NoFaultsFrom(s.dev, StageEnd(s.dev))
    ensures var b := Boot(s, d);
      && Ready(b) && AllAgree(b) && AllFit(b) && NoFaultsFrom(b.dev, b.dev.calls)
      && b.ram[CFG_VERSION] == CFG_CURRENT_VERSION
      && (forall id: ConfigId :: id != CFG_VERSION ==>
            b.ram[id] == if Mismatch(s) then Default(d, id) else BootValue(s.dev.kv, d, id))
  {
    var s0 := s.(ram := ZeroRam());
    var v, b := VersionStage(s0), Boot(s, d);
    VersionStageSucceedsIff(s0);
    VersionStageResult(s0);
    assert Mismatch(s0) == Mismatch(s);
    forall id: ConfigId
      ensures Agrees(b, id) && Fits(id, b.ram[id])
      ensures id == CFG_VERSION ==> b.ram[id] == CFG_CURRENT_VERSION
      ensures id != CFG_VERSION ==>
        b.ram[id] == if Mismatch(s) then Default(d, id) else BootValue(s.dev.kv, d, id)
      ensures Ready(b) && NoFaultsFrom(b.dev, b.dev.calls)
    {
      FieldsAreAllButVersion(id);
      LoadFieldsAt(v, d, FIELDS, id);
      BootEntryReadsBack(v.dev.kv, d, id);
      DecodeEncoded(CFG_VERSION, CFG_CURRENT_VERSION);
    }
    assert Agrees(b, CFG_VERSION);
  }

  /** Booting again from a store that agrees writes nothing and gives the same configuration. */
  lemma SecondBootIsQuiet(b: State, s: State, d: Defaults)
    requires AllAgree(b) && b.ram[CFG_VERSION] == CFG_CURRENT_VERSION
    requires s.fsEnabled && s.dev == b.dev && NoFaultsFrom(s.dev, s.dev.calls)
    ensures var b' := Boot(s, d);
      && Ready(b') && b'.dev.kv == b.dev.kv && b'.dev.writes == b.dev.writes
      && (forall id: ConfigId :: b'.ram[id] == b.ram[id])
  {
    var s0 := s.(ram := ZeroRam());
    var v := VersionStage(s0);
    assert Agrees(b, CFG_VERSION);
    ReadWithoutFault(s0.(useFs := true), CFG_VERSION);
    assert v == s0.(useFs := true, dev := Called(s.dev), ram := s0.ram[CFG_VERSION := CFG_CURRENT_VERSION]);
    forall id: ConfigId ensures Readable(v.dev.kv, id) {
      assert Agrees(b, id);
    }
    LoadFieldsQuiet(v, d, FIELDS);
    forall id: ConfigId ensures Boot(s, d).ram[id] == b.ram[id] && Ready(Boot(s, d)) {
      assert Agrees(b, id);
      FieldsAreAllButVersion(id);
      LoadFieldsAt(v, d, FIELDS, id);
    }
  }

  /**
   If the store is missing or any call that the version stage needs fails, all
   fields are defaults and the store is not touched again.
   */
  lemma BootWithoutStore(s: State, d: Defaults)
    requires s.fsEnabled ==> !StageAnswered(s.dev)
    ensures !Ready(Boot(s, d))
    ensures Boot(s, d).dev == VersionStage(s.(ram := ZeroRam())).dev
    ensures forall id: ConfigId :: id != CFG_VERSION ==> Boot(s, d).ram[id] == Default(d, id)
  {
    if s.fsEnabled {
      VersionStageSucceedsIff(s.(ram := ZeroRam()));
    }
    LoadFieldsWithoutStore(VersionStage(s.(ram := ZeroRam())), d, FIELDS);
    forall id: ConfigId | id != CFG_VERSION ensures Boot(s, d).ram[id] == Default(d, id) {
      FieldsAreAllButVersion(id);
    }
  }

  /**
   The configuration of a device without a usable store: the built-in password
   and host name cut to 20 characters, no addresses, DHCP and time
   synchronisation on with pool.ntp.org, and no automatic power-on.
   */
  lemma FactorySettings(s: State, d: Defaults)
    requires s.fsEnabled ==> !StageAnswered(s.dev)
    ensures var ram := Boot(s, d).ram;
      && ram[CFG_BMC_ADMIN_PASSWORD] == d.password[..Min(20, |d.password|)]
      && ram[CFG_BMC_HOSTNAME] == d.hostname[..Min(20, |d.hostname|)]
      && ram[CFG_BMC_DEFAULT_IP4] == ram[CFG_BMC_DEFAULT_IP4_NM] == ram[CFG_BMC_DEFAULT_IP4_GW] == [0, 0, 0, 0]
      && ram[CFG_BMC_USE_DHCP4] == ram[CFG_BMC_USE_NTP] == [1]
      && ram[CFG_HOST_AUTO_POWERON] == [0]
      && ram[CFG_BMC_NTP_SERVER] == Octets("pool.ntp.org")
  {
    BootWithoutStore(s, d);
    assert Zeros(4) == [0, 0, 0, 0];
    assert DEFAULT_NTP_SERVER == Octets("pool.ntp.org");
    assert DEFAULT_NTP_SERVER[..12] == DEFAULT_NTP_SERVER;
  }

  /** The characters of an ASCII string as octets. */
  function Octets(s: string): seq<byte> {
    seq(|s|, k requires 0 <= k < |s| => (s[k] as int) % 256)
  }

  /** After a version mismatch that was erased, no old field survives, whatever fails later. */
  lemma MismatchKeepsNothing(s: State, d: Defaults)
    requires Mismatch(s) && StageAnswered(s.dev)
    ensures forall id: ConfigId :: id != CFG_VERSION ==> Boot(s, d).ram[id] == Default(d, id)
  {
    var s0 := s.(ram := ZeroRam());
    VersionStageSucceedsIff(s0);
    VersionStageResult(s0);
    assert Mismatch(s0) == Mismatch(s);
    FieldsAreAllButVersion(CFG_VERSION);
    LoadFieldsFromNothing(VersionStage(s0), d, FIELDS);
    forall id: ConfigId | id != CFG_VERSION ensures Boot(s, d).ram[id] == Default(d, id) {
      FieldsAreAllButVersion(id);
    }
  }

  // ---------------------------------------------------------------------
  // Setters
  // ---------------------------------------------------------------------

  /** The value a request asks for. */
  function NewValue(r: Request): seq<byte> {
    match r
    case SetHostname(name, _) => Truncate(CFG_BMC_HOSTNAME, name)
    case SetAddress(_, a, _) => if a.Address? then a.bytes else Zeros(4)
    case SetFlag(_, on) => FlagValue(on)
    case SetNtpServer(name, _) => Truncate(CFG_BMC_NTP_SERVER, name)
    case SetPassword(password) => Truncate(CFG_BMC_ADMIN_PASSWORD, password)
  }

  function InMemory(s: State, r: Request): State {
    s.(ram := s.ram[Target(r) := NewValue(r)])
  }

  /** What becomes of a request: nothing changes, only memory changes, or it is stored. */
  datatype Fate = Untouched | NotSaved | Saved

  function FateOf(s: State, r: Request): Fate {
    if (r.SetHostname? && r.applied != 0)
      || (r.SetAddress? && r.address.BadAddress?)
      || (r.SetFlag? && s.ram[r.id] == FlagValue(r.on))
      || (r.SetPassword? && |r.password| > 20)
    then Untouched
    else if (r.SetAddress? && r.applied != 0) || ConfigWrite(InMemory(s, r), Target(r)).rc < 0 then NotSaved
    else Saved
  }

  lemma FateDecides(s: State, r: Request)
    requires Ready(s) && WellFormed(r)
    ensures var o := Handle(s, r);
      && o.state.dev.answers == s.dev.answers && o.state.dev.calls >= s.dev.calls
      && Ready(o.state)
      && o.state.ram == (if FateOf(s, r).Untouched? then s.ram else s.ram[Target(r) := NewValue(r)])
      && o.state.dev.kv == (if FateOf(s, r).Saved? then s.dev.kv[Target(r) := NewValue(r)] else s.dev.kv)
      && (o.ret == 0 && !FateOf(s, r).Untouched? ==> FateOf(s, r).Saved?)
  {
    WriteResult(InMemory(s, r), Target(r));
  }

  /**
   What each setter returns. A host name the network refuses, an address that
   does not parse and a password over 20 characters change nothing and return
   the error; an address the network refuses stays in memory only; a flag that
   has the value already returns 0. Anything else returns the error of the last
   attempt at writing it, if that failed, or -ENODEV if the store is not in use;
   and a time server stored while time synchronisation is on returns an error in
   restarting it.
   */
  lemma SetterReturns(s: State, r: Request)
    requires WellFormed(r)
    ensures !Ready(s) ==> Handle(s, r).state.dev == s.dev
    ensures var o, written := Handle(s, r), s.dev.answers(LastFrom(s.dev.answers, s.dev.calls));
      var saved := if !Ready(s) then -19 else if written.Err? then written.code else 0;
      match r
      case SetHostname(_, applied) => if applied != 0 then o == Reply(applied, s) else o.ret == saved
      case SetAddress(_, a, applied) =>
        if a.BadAddress? then o == Reply(-22, s)
        else if applied != 0 then o.ret == applied && o.state.dev == s.dev else o.ret == saved
      case SetFlag(id, on) => if s.ram[id] == [if on then 1 else 0] then o == Reply(0, s) else o.ret == saved
      case SetNtpServer(_, restarted) =>
        o.ret == if saved == 0 && s.ram[CFG_BMC_USE_NTP] != [0] && restarted < 0 then restarted else saved
      case SetPassword(password) => if |password| > 20 then o == Reply(-22, s) else o.ret == saved
  {
    WriteIsLastAttempt(s.dev, Target(r), NewValue(r), 0);
  }

  /** What each setter puts in memory, unless it changes nothing. */
  lemma SetterSets(s: State, r: Request)
    requires Ready(s) && WellFormed(r) && !FateOf(s, r).Untouched?
    ensures var v := Handle(s, r).state.ram;
      match r
      case SetHostname(name, _) => v == s.ram[CFG_BMC_HOSTNAME := name[..Min(20, |name|)]]
      case SetAddress(id, a, _) => v == s.ram[id := if a.Address? then a.bytes else [0, 0, 0, 0]]
      case SetFlag(id, on) => v == s.ram[id := [if on then 1 else 0]]
      case SetNtpServer(name, _) => v == s.ram[CFG_BMC_NTP_SERVER := name[..Min(40, |name|)]]
      case SetPassword(password) => v == s.ram[CFG_BMC_ADMIN_PASSWORD := password]
  {
    FateDecides(s, r);
    assert Zeros(4) == [0, 0, 0, 0];
    if r.SetPassword? {
      assert r.password[..|r.password|] == r.password;
    }
  }

  lemma NewValueFits(r: Request)
    requires WellFormed(r)
    ensures Fits(Target(r), NewValue(r))
  {
  }

  /** The fields whose latest change did not reach the store. */
  function NextDirty(s: State, r: Request, dirty: set<ConfigId>): set<ConfigId> {
    match FateOf(s, r)
    case Untouched => dirty
    case NotSaved => dirty + {Target(r)}
    case Saved => if NewValue(r) == [] then dirty + {Target(r)} else dirty - {Target(r)}
  }

  ghost predicate AgreeExcept(s: State, dirty: set<ConfigId>) {
    forall id: ConfigId :: id !in dirty ==> Agrees(s, id)
  }

  lemma HandleTracksDirty(s: State, r: Request, dirty: set<ConfigId>)
    requires Ready(s) && WellFormed(r) && AgreeExcept(s, dirty) && AllFit(s)
    ensures AgreeExcept(Handle(s, r).state, NextDirty(s, r, dirty)) && AllFit(Handle(s, r).state)
  {
    var s' := Handle(s, r).state;
    FateDecides(s, r);
    NewValueFits(r);
    DecodeEncoded(Target(r), NewValue(r));
    forall id: ConfigId ensures id !in NextDirty(s, r, dirty) ==> Agrees(s', id) {
      assert id !in dirty ==> Agrees(s, id);
    }
  }

  function HandleAll(s: State, rs: seq<Request>): State
    decreases rs
  {
    if rs == [] then s else HandleAll(Handle(s, rs[0]).state, rs[1..])
  }

  function DirtyAfter(s: State, rs: seq<Request>, dirty: set<ConfigId>): set<ConfigId>
    decreases rs
  {
    if rs == [] then dirty else DirtyAfter(Handle(s, rs[0]).state, rs[1..], NextDirty(s, rs[0], dirty))
  }

  /** The value of a field that was last successfully written, starting from what was stored. */
  function LastSaved(s: State, rs: seq<Request>, id: ConfigId, stored: seq<byte>): seq<byte>
    decreases rs
  {
    if rs == [] then stored
    else LastSaved(Handle(s, rs[0]).state, rs[1..], id,
                   if FateOf(s, rs[0]).Saved? && Target(rs[0]) == id then NewValue(rs[0]) else stored)
  }

  /**
   Under arbitrary failures of storage and network: each entry is the value
   last successfully written to it, and memory differs from the store only at
   fields whose latest change failed or stored an empty string.
   */
  lemma {:induction false} StoreTracksMemory(s: State, rs: seq<Request>, dirty: set<ConfigId>, id: ConfigId)
    requires Ready(s) && AgreeExcept(s, dirty) && AllFit(s)
    requires forall k :: 0 <= k < |rs| ==> WellFormed(rs[k])
    ensures var s' := HandleAll(s, rs);
      && Ready(s') && AllFit(s')
      && AgreeExcept(s', DirtyAfter(s, rs, dirty))
      && s'.dev.kv[id] == LastSaved(s, rs, id, s.dev.kv[id])
      && s'.dev.calls >= s.dev.calls && s'.dev.answers == s.dev.answers
    decreases rs
  {
    if rs != [] {
      FateDecides(s, rs[0]);
      HandleTracksDirty(s, rs[0], dirty);
      StoreTracksMemory(Handle(s, rs[0]).state, rs[1..], NextDirty(s, rs[0], dirty), id);
    }
  }

  /** A request that meets no failure of the network and stores no empty string. */
  predicate Smooth(r: Request) {
    && WellFormed(r)
    && (r.SetAddress? ==> r.applied == 0)
    && NewValue(r) != []
  }

  lemma {:induction false} SmoothRunStaysClean(s: State, rs: seq<Request>)
    requires Ready(s) && NoFaultsFrom(s.dev, s.dev.calls)
    requires forall k :: 0 <= k < |rs| ==> Smooth(rs[k])
    ensures DirtyAfter(s, rs, {}) == {}
    ensures HandleAll(s, rs).ram[CFG_VERSION] == s.ram[CFG_VERSION]
    decreases rs
  {
    if rs != [] {
      FateDecides(s, rs[0]);
      WriteResult(InMemory(s, rs[0]), Target(rs[0]));
      assert NextDirty(s, rs[0], {}) == {};
      SmoothRunStaysClean(Handle(s, rs[0]).state, rs[1..]);
    }
  }

  /**
   Durability: from a booted configuration, after any sequence of setter calls
   in which no storage call or network apply fails and no string is empty,
   memory agrees with the store, and the next boot reproduces it.
   */
  lemma SettingsSurviveReboot(s: State, rs: seq<Request>, s1: State, d: Defaults)
    requires Ready(s) && AllAgree(s) && AllFit(s) && NoFaultsFrom(s.dev, s.dev.calls)
    requires s.ram[CFG_VERSION] == CFG_CURRENT_VERSION
    requires forall k :: 0 <= k < |rs| ==> Smooth(rs[k])
    requires s1.fsEnabled && s1.dev == HandleAll(s, rs).dev
    ensures AllAgree(HandleAll(s, rs))
    ensures forall id: ConfigId :: Boot(s1, d).ram[id] == HandleAll(s, rs).ram[id]
    ensures Boot(s1, d).dev.writes == s1.dev.writes
  {
    StoreTracksMemory(s, rs, {}, CFG_VERSION);
    SmoothRunStaysClean(s, rs);
    var s' := HandleAll(s, rs);
    forall id: ConfigId ensures Agrees(s', id) {
      assert id !in DirtyAfter(s, rs, {});
    }
    SecondBootIsQuiet(s', s1, d);
  }

  /**
   A string setting that nothing fails is in the store afterwards exactly when
   the string is not empty: writing nothing deletes the entry.
   */
  lemma StringDurableIff(s: State, r: Request)
    requires Ready(s) && NoFaultsFrom(s.dev, s.dev.calls) && WellFormed(r)
    requires (r.SetHostname? && r.applied == 0) || r.SetNtpServer? || (r.SetPassword? && |r.password| <= 20)
    ensures Agrees(Handle(s, r).state, Target(r)) <==> NewValue(r) != []
  {
    FateDecides(s, r);
    WriteResult(InMemory(s, r), Target(r));
    NewValueFits(r);
    DecodeEncoded(Target(r), NewValue(r));
  }

  /** Changing a flag fails exactly when the last attempt at writing it does. */
  lemma FlagChangeFailsIff(s: State, id: ConfigId, on: bool)
    requires Ready(s) && IsFlag(id) && s.ram[id] != FlagValue(on)
    ensures Handle(s, SetFlag(id, on)).ret < 0 <==> s.dev.answers(LastFrom(s.dev.answers, s.dev.calls)).Err?
  {
    WriteIsLastAttempt(s.dev, id, FlagValue(on), 0);
  }

  /**
   Repeating a call whose write failed returns success without writing: the
   flag is then not durable.
   */
  lemma RepeatedFlagIsUnsaved(s: State, id: ConfigId, on: bool)
    requires Ready(s) && IsFlag(id) && Agrees(s, id)
    requires Handle(s, SetFlag(id, on)).ret < 0
    ensures var s1 := Handle(s, SetFlag(id, on)).state;
      Handle(s1, SetFlag(id, on)) == Reply(0, s1) && !Agrees(s1, id)
  {
    FateDecides(s, SetFlag(id, on));
    DecodeEncoded(id, FlagValue(on));
  }

  /**
   What a caller may conclude to be stored for a flag: the value of the last
   call that found it different and returned success, at first what it was.
   */
  function LastReported(s: State, rs: seq<Request>, id: ConfigId, first: seq<byte>): seq<byte>
    decreases rs
  {
    if rs == [] then first
    else
      var o := Handle(s, rs[0]);
      var saved := Target(rs[0]) == id && s.ram[id] != NewValue(rs[0]) && o.ret == 0;
      LastReported(o.state, rs[1..], id, if saved then NewValue(rs[0]) else first)
  }

  lemma {:induction false} LastReportedIsStored(s: State, rs: seq<Request>, id: ConfigId)
    requires Ready(s) && IsFlag(id) && |s.ram[id]| == 1
    requires forall k :: 0 <= k < |rs| ==> WellFormed(rs[k])
    ensures var s' := HandleAll(s, rs);
      && Ready(s') && |s'.ram[id]| == 1
      && s'.dev.kv[id] == LastReported(s, rs, id, s.dev.kv[id])
    decreases rs
  {
    if rs != [] {
      FateDecides(s, rs[0]);
      LastReportedIsStored(Handle(s, rs[0]).state, rs[1..], id);
    }
  }

  /**
   After any run of setter calls, whatever failed: a flag setter that returns
   success has made the flag durable exactly when the flag was different or the
   value is the one that calls so far reported as saved.
   */
  lemma FlagSuccessIsDurableIff(s: State, rs: seq<Request>, id: ConfigId, on: bool)
    requires Ready(s) && IsFlag(id) && Agrees(s, id) && |s.ram[id]| == 1
    requires forall k :: 0 <= k < |rs| ==> WellFormed(rs[k])
    requires Handle(HandleAll(s, rs), SetFlag(id, on)).ret == 0
    ensures var s' := HandleAll(s, rs);
      Agrees(Handle(s', SetFlag(id, on)).state, id)
      <==> s'.ram[id] != FlagValue(on) || LastReported(s, rs, id, s.ram[id]) == FlagValue(on)
  {
    var s' := HandleAll(s, rs);
    LastReportedIsStored(s, rs, id);
    FateDecides(s', SetFlag(id, on));
    DecodeEncoded(id, s.dev.kv[id]);
    DecodeEncoded(id, FlagValue(on));
  }

  /**
   After a setting that nothing fails and a reboot, a password is whole or was
   refused and is the old one; host and time server names are cut to their limits.
   */
  lemma StringLimits(s: State, r: Request, s1: State, d: Defaults)
    requires Ready(s) && AllAgree(s) && AllFit(s) && NoFaultsFrom(s.dev, s.dev.calls)
    requires s.ram[CFG_VERSION] == CFG_CURRENT_VERSION && Smooth(r)
    requires s1.fsEnabled && s1.dev == Handle(s, r).state.dev
    ensures var ram := Boot(s1, d).ram;
      && (r.SetPassword? ==>
            ram[CFG_BMC_ADMIN_PASSWORD] == if |r.password| <= 20 then r.password else s.ram[CFG_BMC_ADMIN_PASSWORD])
      && (r.SetHostname? && r.applied == 0 ==> ram[CFG_BMC_HOSTNAME] == r.name[..Min(20, |r.name|)])
      && (r.SetNtpServer? ==> ram[CFG_BMC_NTP_SERVER] == r.name[..Min(40, |r.name|)])
  {
    assert HandleAll(s, [r]) == Handle(s, r).state;
    SettingsSurviveReboot(s, [r], s1, d);
    FateDecides(s, r);
    if r.SetPassword? {
      assert |r.password| <= 20 ==> r.password[..|r.password|] == r.password;
    }
  }
}
