/** Counting and indexing network interfaces (src/net_android.c:57-231): two loops over one table that
    must agree on which interfaces there are and in what order. */
module Interfaces {
  import opened Filtering

  const OFC_INADDR_NONE := 0xFFFF_FFFF

  datatype Option<+T> = None | Some(value: T)

  datatype Family = AF_INET | OTHER_FAMILY

  /** One struct ifreq of the configuration table. */
  datatype IfReq = IfReq(name: string, family: Family)

  datatype Flags = Flags(up: bool, loopback: bool)

  /** What the kernel answers: None stands for a failed call. */
  datatype Kernel = Kernel(
    socket: bool, config: Option<seq<IfReq>>,
    flags: string -> Option<Flags>, addr: string -> Option<nat>,
    netmask: string -> Option<nat>, broadcast: string -> Option<nat>)

  /** ofc_strncmp(name, prefix, |prefix|) == 0. */
  predicate StartsWith(name: string, prefix: string) {
    prefix <= name
  }

  predicate WantedName(name: string) {
    StartsWith(name, "wlan") || StartsWith(name, "eth") || StartsWith(name, "tun") ||
    StartsWith(name, "p2p-wlan")
  }

  /** An IPv4 interface with a wanted name that is up and is not the loopback. */
  predicate Usable(k: Kernel, x: IfReq) {
    x.family == AF_INET && WantedName(x.name) &&
    k.flags(x.name).Some? && k.flags(x.name).value.up && !k.flags(x.name).value.loopback
  }

  /** The usable interfaces in table order; none when the table cannot be had. */
  function Interfaces(k: Kernel): seq<IfReq> {
    if k.socket && k.config.Some? then UsableIn(k, k.config.value) else []
  }

  function UsableIn(k: Kernel, table: seq<IfReq>): seq<IfReq> {
    Select(table, x => Usable(k, x))
  }

  /** The loop body's test. */
  method IsUsable(k: Kernel, x: IfReq) returns (usable: bool)
    ensures usable == Usable(k, x)
    ensures usable <==>
            x.family == AF_INET && k.flags(x.name) == Some(Flags(true, false)) &&
            ("wlan" <= x.name || "eth" <= x.name || "tun" <= x.name || "p2p-wlan" <= x.name)
  {
    usable := false;
    if x.family == AF_INET {
      if WantedName(x.name) {
        var flags := k.flags(x.name);
        if flags.Some? && flags.value.up && !flags.value.loopback {
          usable := true;
        }
      }
    }
  }

  /** ofc_net_interface_count_impl. */
  method InterfaceCount(k: Kernel) returns (maxCount: nat)
    ensures maxCount == |Interfaces(k)|
    ensures !k.socket || k.config.None? ==> maxCount == 0
  {
    maxCount := 0;
    if k.socket && k.config.Some? {
      var table := k.config.value;
      for i := 0 to |table|
        invariant maxCount == |UsableIn(k, table[..i])|
      {
        SelectNext(table, x => Usable(k, x), i);
        var usable := IsUsable(k, table[i]);
        if usable {
          maxCount := maxCount + 1;
        }
      }
      assert table[..|table|] == table;
    }
  }

  function OrNone(a: Option<nat>): nat {
    if a.Some? then a.value else OFC_INADDR_NONE
  }

  /** The output is the kernel's answer, or all ones when the query failed. */
  predicate Answers(a: Option<nat>, out: nat) {
    a == Some(out) || (a == None && out == 0xFFFF_FFFF)
  }

  /** ofc_net_interface_addr_impl with all three outputs asked for. An index counts exactly the usable
      interfaces; any other index, negative ones included, leaves the outputs at OFC_INADDR_NONE. */
  method InterfaceAddr(k: Kernel, index: int) returns (inaddr: nat, bcast: nat, mask: nat)
    ensures 0 <= index < |Interfaces(k)| ==>
              Answers(k.addr(Interfaces(k)[index].name), inaddr) &&
              Answers(k.broadcast(Interfaces(k)[index].name), bcast) &&
              Answers(k.netmask(Interfaces(k)[index].name), mask)
    ensures !(0 <= index < |Interfaces(k)|) ==> inaddr == bcast == mask == OFC_INADDR_NONE
  {
    inaddr, bcast, mask := OFC_INADDR_NONE, OFC_INADDR_NONE, OFC_INADDR_NONE;
    var maxCount := 0;
    if k.socket && k.config.Some? {
      var table := k.config.value;
      var i, p, found := 0, 0, false;
      while i < |table| && !found
        invariant i <= |table| && p <= i
        invariant maxCount == |UsableIn(k, table[..i])|
        invariant !found ==> p == i && !(0 <= index < maxCount)
        invariant found ==> p < |table| && 0 <= index < maxCount && UsableIn(k, table[..i])[index] == table[p]
      {
        SelectNext(table, x => Usable(k, x), i);
        var usable := IsUsable(k, table[i]);
        if usable {
          if index == maxCount {
            found := true;
          }
          maxCount := maxCount + 1;
        }
        if !found {
          p := p + 1;
        }
        i := i + 1;
      }
      if found {
        SelectGrows(table, x => Usable(k, x), i);
        inaddr := OrNone(k.addr(table[p].name));
        mask := OrNone(k.netmask(table[p].name));
        bcast := OrNone(k.broadcast(table[p].name));
      } else {
        assert table[..i] == table;
      }
    }
  }

  /** What the interface list is: the usable entries of the table, all of them, in table order. */
  lemma InterfacePlaces(k: Kernel, table: seq<IfReq>) returns (places: seq<nat>)
    requires k.socket && k.config == Some(table)
    ensures PlacesOf(table, x => Usable(k, x), Interfaces(k), places)
    ensures forall i | 0 <= i < |table| ::
              i in places <==>
                table[i].family == AF_INET && k.flags(table[i].name) == Some(Flags(true, false)) &&
                ("wlan" <= table[i].name || "eth" <= table[i].name || "tun" <= table[i].name ||
                 "p2p-wlan" <= table[i].name)
  {
    places := SelectPlaces(table, x => Usable(k, x));
  }
}
