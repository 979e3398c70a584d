/**
 The configuration as the program keeps it: fields in memory, the flags saying
 whether the store is mounted and in use, and the store itself, all updated in
 place. Every method is proved against the functions of Storage and Config.
 */
module ConfigStores {
  import opened Bytes
  import opened Config
  import opened Errno
  import opened Storage

  /** One more field of a loading order loaded. */
  lemma LoadsRemaining(s: State, d: Defaults, order: seq<ConfigId>, k: nat)
    requires k < |order|
    ensures LoadFields(s, d, order[k..]) == LoadFields(LoadField(s, d, order[k]), d, order[k + 1..])
  {
    assert order[k..][1..] == order[k + 1..];
  }

  class ConfigStore {
    var ram: Fields
    var useFs: bool
    var fsEnabled: bool
    var dev: Device

    ghost function View(): State
      reads this
    {
      State(ram, useFs, fsEnabled, dev)
    }

    /** Power-on: nothing is mounted or in use, and memory is zero. */
    constructor (store: Device)
      ensures View() == State(ZeroRam(), false, false, store)
    {
      ram, useFs, fsEnabled, dev := ZeroRam(), false, false, store;
    }

    // -------------------------------------------------------------------
    // The file system layer
    // -------------------------------------------------------------------

    method FsClear() returns (rc: int)
      modifies `dev
      ensures !fsEnabled ==> rc == -ENODEV && dev == old(dev)
      ensures fsEnabled ==> Done(rc, dev) == Storage.FsClear(old(dev))
    {
      if !fsEnabled {
        return -ENODEV;
      }
      var retries: nat := 0;
      while true
        invariant retries <= FLASH_WRITE_RETRY_COUNT
        invariant Storage.FsClear(dev, retries) == Storage.FsClear(old(dev))
        decreases FLASH_WRITE_RETRY_COUNT - retries
      {
        var c := NvsClear(dev);
        rc, dev := c.rc, c.dev;
        if rc != 0 {
          if rc == -EIO && retries < FLASH_WRITE_RETRY_COUNT {
            retries := retries + 1;
            continue;
          }
          return rc;
        }
        return 0;
      }
    }

    method FsKeyRead(id: ConfigId, size: nat) returns (rc: int, data: seq<byte>)
      modifies `dev
      ensures !fsEnabled ==> rc == -ENODEV && dev == old(dev)
      ensures fsEnabled ==> Got(rc, data, dev) == FsRead(old(dev), id, size)
    {
      if !fsEnabled {
        return -ENODEV, [];
      }
      var g := NvsRead(dev, id, size);
      rc, data, dev := g.rc, g.data, g.dev;
      if rc < 0 {
        return;
      }
      if rc > size {
        rc := -EINVAL;
      }
    }

    method FsKeyWrite(id: ConfigId, data: seq<byte>) returns (rc: int)
      modifies `dev
      ensures !fsEnabled ==> rc == -ENODEV && dev == old(dev)
      ensures fsEnabled ==> Done(rc, dev) == FsWrite(old(dev), id, data)
    {
      if !fsEnabled {
        return -ENODEV;
      }
      var retries: nat := 0;
      while true
        invariant retries <= FLASH_WRITE_RETRY_COUNT
        invariant FsWrite(dev, id, data, retries) == FsWrite(old(dev), id, data)
        decreases FLASH_WRITE_RETRY_COUNT - retries
      {
        var w := NvsWrite(dev, id, data);
        rc, dev := w.rc, w.dev;
        if rc < 0 {
          if rc == -EIO && retries < FLASH_WRITE_RETRY_COUNT {
            retries := retries + 1;
            continue;
          }
          return rc;
        }
        if rc == 0 {
          return |data|;
        }
        return rc;
      }
    }

    // -------------------------------------------------------------------
    // Boot
    // -------------------------------------------------------------------

    method Read(id: ConfigId) returns (rc: int, data: seq<byte>)
      modifies `dev
      ensures View() == old(View()).(dev := dev)
      ensures rc == ConfigRead(old(View()), id).rc && dev == ConfigRead(old(View()), id).dev
      ensures rc >= 0 ==> data == ConfigRead(old(View()), id).data
    {
      if useFs {
        rc, data := FsKeyRead(id, Width(id));
      } else {
        rc, data := -ENODEV, [];
      }
    }

    /** Store the field as it is in memory. */
    method Write(id: ConfigId) returns (rc: int)
      modifies `dev
      ensures View() == old(View()).(dev := dev)
      ensures Done(rc, dev) == ConfigWrite(old(View()), id)
    {
      if useFs {
        rc := FsKeyWrite(id, ram[id]);
      } else {
        rc := -ENODEV;
      }
    }

    method CheckVersion()
      modifies `ram, `useFs, `dev
      ensures View() == VersionStage(old(View()))
    {
      if fsEnabled {
        useFs := true;
        var rc, data := Read(CFG_VERSION);
        if rc < 0 {
          ram := ram[CFG_VERSION := CFG_CURRENT_VERSION];
          rc := Write(CFG_VERSION);
        } else {
          ram := ram[CFG_VERSION := Decode(CFG_VERSION, data)];
          if ram[CFG_VERSION] != CFG_CURRENT_VERSION {
            rc := FsClear();
            if rc == 0 {
              ram := ram[CFG_VERSION := CFG_CURRENT_VERSION];
              rc := Write(CFG_VERSION);
            }
          } else {
            rc := 0;
          }
        }
        if rc < 0 {
          useFs := false;
        }
      }
    }

    /** Load the k-th field of the boot order, or give it its default and write that back. */
    method LoadOrDefault(id: ConfigId, d: Defaults, ghost order: seq<ConfigId>, ghost k: nat)
      requires k < |order| && order[k] == id
      modifies `ram, `dev
      ensures View() == LoadField(old(View()), d, id)
      ensures LoadFields(View(), d, order[k + 1..]) == LoadFields(old(View()), d, order[k..])
    {
      LoadsRemaining(View(), d, order, k);
      var rc, data := Read(id);
      if rc < 0 {
        ram := ram[id := Default(d, id)];
        rc := Write(id);
      } else {
        ram := ram[id := Decode(id, data)];
      }
    }

    /** Who may log in and where the device is on the network. */
    method LoadIdentity(d: Defaults, ghost order: seq<ConfigId>)
      requires order == FIELDS
      modifies `ram, `dev
      ensures LoadFields(View(), d, order[5..]) == LoadFields(old(View()), d, order[0..])
    {
      LoadOrDefault(CFG_BMC_ADMIN_PASSWORD, d, order, 0);
      LoadOrDefault(CFG_BMC_HOSTNAME, d, order, 1);
      LoadOrDefault(CFG_BMC_DEFAULT_IP4, d, order, 2);
      LoadOrDefault(CFG_BMC_DEFAULT_IP4_NM, d, order, 3);
      LoadOrDefault(CFG_BMC_DEFAULT_IP4_GW, d, order, 4);
    }

    /** What the device runs. */
    method LoadServices(d: Defaults, ghost order: seq<ConfigId>)
      requires order == FIELDS
      modifies `ram, `dev
      ensures View() == LoadFields(old(View()), d, order[5..])
    {
      LoadOrDefault(CFG_BMC_USE_DHCP4, d, order, 5);
      LoadOrDefault(CFG_BMC_USE_NTP, d, order, 6);
      LoadOrDefault(CFG_BMC_NTP_SERVER, d, order, 7);
      LoadOrDefault(CFG_HOST_AUTO_POWERON, d, order, 8);
    }

    method ConfigInit(d: Defaults) returns (rc: int)
      modifies this
      ensures rc == 0 && View() == Boot(old(View()), d)
    {
      ram := ZeroRam();
      CheckVersion();
      LoadIdentity(d, FIELDS);
      LoadServices(d, FIELDS);
      assert FIELDS[0..] == FIELDS;
      rc := 0;
    }

    // -------------------------------------------------------------------
    // Setters
    // -------------------------------------------------------------------

    method HostnameSet(name: seq<byte>, applied: int) returns (rc: int)
      modifies `ram, `dev
      ensures Reply(rc, View()) == Handle(old(View()), SetHostname(name, applied))
    {
      if applied != 0 {
        return applied;
      }
      ram := ram[CFG_BMC_HOSTNAME := Truncate(CFG_BMC_HOSTNAME, name)];
      rc := Write(CFG_BMC_HOSTNAME);
      if rc < 0 {
        return rc;
      }
      rc := 0;
    }

    /** The address, netmask and gateway setters; they differ in the field only. */
    method AddressSet(id: ConfigId, address: Address, applied: int) returns (rc: int)
      requires IsAddress(id)
      modifies `ram, `dev
      ensures Reply(rc, View()) == Handle(old(View()), SetAddress(id, address, applied))
    {
      match address {
        case BadAddress => return -EINVAL;
        case NoAddress => ram := ram[id := Zeros(4)];
        case Address(bytes) => ram := ram[id := bytes];
      }
      if applied != 0 {
        return applied;
      }
      rc := Write(id);
      if rc < 0 {
        return rc;
      }
      rc := 0;
    }

    /** The DHCP, time synchronisation and auto power-on setters. */
    method FlagSet(id: ConfigId, on: bool) returns (rc: int)
      requires IsFlag(id)
      modifies `ram, `dev
      ensures Reply(rc, View()) == Handle(old(View()), SetFlag(id, on))
    {
      if on {
        if ram[id] == [1] {
          return 0;
        }
        ram := ram[id := [1]];
      } else {
        if ram[id] == [0] {
          return 0;
        }
        ram := ram[id := [0]];
      }
      rc := Write(id);
      if rc < 0 {
        return rc;
      }
      rc := 0;
    }

    method NtpServerSet(name: seq<byte>, restarted: int) returns (rc: int)
      modifies `ram, `dev
      ensures Reply(rc, View()) == Handle(old(View()), SetNtpServer(name, restarted))
    {
      ram := ram[CFG_BMC_NTP_SERVER := Truncate(CFG_BMC_NTP_SERVER, name)];
      rc := Write(CFG_BMC_NTP_SERVER);
      if rc < 0 {
        return rc;
      }
      if ram[CFG_BMC_USE_NTP] != [0] {
        if restarted < 0 {
          return restarted;
        }
      }
      rc := 0;
    }

    method PasswordSet(password: seq<byte>) returns (rc: int)
      modifies `ram, `dev
      ensures Reply(rc, View()) == Handle(old(View()), SetPassword(password))
    {
      if |password| > Width(CFG_BMC_ADMIN_PASSWORD) {
        return -EINVAL;
      }
      ram := ram[CFG_BMC_ADMIN_PASSWORD := Truncate(CFG_BMC_ADMIN_PASSWORD, password)];
      rc := Write(CFG_BMC_ADMIN_PASSWORD);
      if rc < 0 {
        return rc;
      }
      rc := 0;
    }
  }
}
