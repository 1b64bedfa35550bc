/** The operations of src/network.rs that allocate addresses and keep name service up to date,
    over the files they read and rewrite. Failures of commands and writes are parameters. */
module NetworkStore {
  import opened Wrappers
  import opened Decimal
  import opened Hosts
  import opened Network

  class Store {
    var defaultNextIp: Option<string>
    var nextOctet: Option<string>
    var networks: map<string, NetworkDir>
    /** The network bridges the kernel has. */
    var bridges: set<string>
    /** Every address handed out, oldest first. */
    ghost var handed: seq<Address>
    /** The subnets in which a failed removal lost the counter and left the network. */
    ghost var lost: set<u8>
    /** The networks whose hosts file a failed write or removal left wrong. */
    ghost var stale: set<string>

    constructor ()
      ensures Valid() && networks == map[] && bridges == {} && handed == [] && lost == {} && stale == {}
      ensures Host() == 2 && Octet() == 43
    {
      defaultNextIp, nextOctet, networks, bridges := None, None, map[], {};
      handed, lost, stale := [], {}, {};
    }

    ghost function Host(): u8
      reads this`defaultNextIp
    {
      CounterValue(defaultNextIp, FIRST_HOST)
    }

    ghost function Octet(): u8
      reads this`nextOctet
    {
      CounterValue(nextOctet, FIRST_NETWORK)
    }

    ghost predicate Allocated()
      reads this
    {
      && CounterOk(defaultNextIp, FIRST_HOST)
      && CounterOk(nextOctet, FIRST_NETWORK)
      && AllocOk(Host(), Octet(), networks, handed, lost)
    }

    ghost predicate Valid()
      reads this
    {
      Allocated() && HostsOk(networks, stale)
    }

    ghost predicate HasLive(name: string)
      reads this`networks
    {
      name in networks && Live(networks[name])
    }

    ghost predicate Removable(name: string)
      reads this`networks
    {
      HasLive(name) && networks[name].info.value.containers == map[]
    }

    ghost predicate HasBridge(name: string)
      reads this`bridges
    {
      BridgeName(name) in bridges
    }

    /** The subnet whose counter the removal of the network loses, if it does. */
    ghost function LostBy(name: string, removal: Removal): set<u8>
      reads this`networks, this`handed
    {
      if Removable(name) then LostSubnet(networks[name], removal, handed) else {}
    }

    /** The hosts file of a live network is not known to be right. */
    ghost predicate Wrong(name: string)
      reads this`networks, this`stale
    {
      HasLive(name) && name in stale
    }

    // ---------- Allocation ----------

    method AllocateIp(writeOk: bool) returns (r: Result<Address, NetworkError>)
      requires Valid()
      modifies this`defaultNextIp, this`handed
      ensures Valid()
      ensures r.Ok? <==> old(Host()) <= 254 && writeOk
      ensures r.Ok? ==> r.value == Address(42, old(Host())) && Host() == old(Host()) + 1
      ensures r.Ok? ==> handed == old(handed) + [r.value]
      ensures r.Err? ==> defaultNextIp == old(defaultNextIp) && handed == old(handed)
    {
      CounterReads(defaultNextIp, FIRST_HOST);
      var counter := ReadCounter(defaultNextIp, FIRST_HOST);
      if counter.None? {
        return Err(BadCounter);
      }
      var nextOctet := counter.value;
      if nextOctet > 254 {
        return Err(Exhausted);
      }
      var ip := Address(DEFAULT_THIRD, nextOctet);
      var next := nextOctet + 1;
      if !writeOk {
        return Err(WriteFailed);
      }
      HandOutDefault(nextOctet, Octet(), networks, handed, lost);
      CounterWritten(next, FIRST_HOST);
      defaultNextIp := Some(Show(next as nat));
      handed := handed + [ip];
      return Ok(ip);
    }

    method AllocateNetworkOctet(writeOk: bool) returns (r: Result<u8, NetworkError>)
      requires Valid()
      modifies this`nextOctet
      ensures Valid()
      ensures r.Ok? <==> old(Octet()) <= 254 && writeOk
      ensures r.Ok? ==> r.value == old(Octet()) && Octet() == r.value + 1
      ensures r.Ok? ==> FIRST_NETWORK <= r.value && FreshOctet(r.value, networks, handed, lost)
      ensures r.Err? ==> nextOctet == old(nextOctet)
    {
      CounterReads(nextOctet, FIRST_NETWORK);
      // An unreadable counter would start over at 43.
      var counter := ReadCounter(nextOctet, FIRST_NETWORK);
      var octet := if counter.Some? then counter.value else FIRST_NETWORK;
      if octet > 254 {
        return Err(Exhausted);
      }
      if !writeOk {
        return Err(WriteFailed);
      }
      NextOctetFresh(Host(), octet, networks, handed, lost);
      BurnOctet(Host(), octet, networks, handed, lost);
      CounterWritten(octet + 1, FIRST_NETWORK);
      nextOctet := Some(Show((octet + 1) as nat));
      return Ok(octet);
    }

    // ---------- Networks ----------

    /** `linkAdded`, `linkUp`, `saved`: whether the bridge is added, whether the commands after that work,
        and whether the metadata is written. */
    method CreateNetwork(name: string, octetWritten: bool, linkAdded: bool, linkUp: bool, hostsWrite: HostsWrite,
                         pidWritten: bool, saved: bool)
      returns (r: Result<NetworkInfo, NetworkError>)
      requires Valid()
      modifies this
      ensures Valid() && handed == old(handed) && lost == old(lost) && defaultNextIp == old(defaultNextIp)
      ensures name in old(networks) ==> r == Err(AlreadyExists) && bridges == old(bridges)
      ensures r.Ok? <==>
        && name !in old(networks) && |name| <= 8 && !old(HasBridge(name))
        && old(Octet()) <= 254 && octetWritten && linkAdded && linkUp && saved
      ensures r.Ok? ==> r.value == NetworkInfo(Address(old(Octet()), 1), map[])
      ensures r.Ok? ==>
        var hosts := if hostsWrite.Written? then Some("") else hostsWrite.hosts;
        name in networks && networks[name] == NetworkDir(Some(r.value), None, hosts, pidWritten)
      ensures bridges == old(bridges)
        + if name !in old(networks) && |name| <= 8 && old(Octet()) <= 254 && octetWritten && linkAdded
          then {BridgeName(name)} else {}
      ensures Octet() as nat == old(Octet()) as nat
        + if name !in old(networks) && old(Octet()) <= 254 && octetWritten then 1 else 0
      ensures r.Ok? && hostsWrite.Written? ==> name !in stale
      ensures SameExcept(old(networks), networks, name) && stale + {name} == old(stale) + {name}
      ensures name in old(networks) ==> networks == old(networks) && stale == old(stale)
      ensures r.Err? && name !in old(networks) ==> name in networks && !HasLive(name)
    {
      if name in networks {
        return Err(AlreadyExists);
      }
      PutDraft(name, NetworkDir(None, None, None, false));
      var octet := AllocateNetworkOctet(octetWritten);
      if octet.Err? {
        return Err(octet.error);
      }
      var added := AddBridge(name, linkAdded);
      if !added || !linkUp {
        return Err(CommandFailed);
      }
      var hosts := if hostsWrite.Written? then Some("") else hostsWrite.hosts;
      PutDraft(name, NetworkDir(None, None, hosts, pidWritten));
      if !saved {
        return Err(WriteFailed);
      }
      var info := NetworkInfo(Address(octet.value, 1), map[]);
      Publish(name, info, hosts, pidWritten, hostsWrite.Written?);
      return Ok(info);
    }

    method AddBridge(name: string, linkAdded: bool) returns (ok: bool)
      modifies this`bridges
      ensures ok <==> |name| <= 8 && !old(HasBridge(name)) && linkAdded
      ensures bridges == old(bridges) + if |name| <= 8 && linkAdded then {BridgeName(name)} else {}
    {
      BridgeNames(name, name);
      var bridge := BridgeName(name);
      ok := |bridge| <= MAX_LINK_NAME && bridge !in bridges && linkAdded;
      if ok {
        bridges := bridges + {bridge};
      }
    }

    /** Files of a directory that is not a network yet. */
    method PutDraft(name: string, dir: NetworkDir)
      requires Valid() && !HasLive(name) && !Live(dir) && dir.nextIp == None
      modifies this`networks
      ensures Valid() && networks == old(networks)[name := dir]
    {
      ReplaceDir(Host(), Octet(), networks, handed, lost, name, dir);
      PutHosts(networks, stale, name, dir);
      networks := networks[name := dir];
    }

    /** Saves a new network's metadata. */
    method Publish(name: string, info: NetworkInfo, hosts: Option<string>, pidFile: bool, written: bool)
      requires Valid() && !HasLive(name)
      requires FIRST_NETWORK <= info.gateway.third < Octet() && info.gateway.last == 1 && info.containers == map[]
      requires FreshOctet(info.gateway.third, networks, handed, lost)
      requires written ==> hosts == Some("")
      modifies this`networks, this`stale
      ensures Valid() && networks == old(networks)[name := NetworkDir(Some(info), None, hosts, pidFile)]
      ensures stale == if written then old(stale) - {name} else old(stale) + {name}
    {
      var dir := NetworkDir(Some(info), None, hosts, pidFile);
      ReplaceDir(Host(), Octet(), networks, handed, lost, name, dir);
      stale := if written then stale - {name} else stale + {name};
      EmptyHostsMatch();
      PutHosts(networks, stale, name, dir);
      networks := networks[name := dir];
    }

    /** A network without containers loses its bridge, if that works, and is then removed, with what a
        failing removal leaves. */
    method RemoveNetwork(name: string, linkDeleted: bool, removal: Removal) returns (r: Result<(), NetworkError>)
      requires Valid()
      modifies this`networks, this`bridges, this`lost, this`stale
      ensures Valid()
      ensures r.Ok? <==> old(Removable(name)) && removal.Removed?
      ensures r.Ok? ==> networks == old(networks) - {name}
      ensures !old(Removable(name)) ==> networks == old(networks)
      ensures old(Removable(name)) && removal.RemovalFailed? ==>
        networks == old(networks)[name := Remains(old(networks)[name], removal)]
      ensures bridges == if old(Removable(name)) && linkDeleted then old(bridges) - {BridgeName(name)}
                         else old(bridges)
      ensures lost == old(lost) + old(LostBy(name, removal))
      ensures stale == if old(Removable(name)) && removal.RemovalFailed? && !removal.hosts
                       then old(stale) + {name} else old(stale)
    {
      if name !in networks || networks[name].info.None? {
        return Err(NotFound);
      }
      if networks[name].info.value.containers != map[] {
        return Err(InUse);
      }
      if linkDeleted {
        bridges := bridges - {BridgeName(name)};
      }
      r := RemoveDirectory(name, removal);
    }

    method RemoveDirectory(name: string, removal: Removal) returns (r: Result<(), NetworkError>)
      requires Valid() && Removable(name)
      modifies this`networks, this`lost, this`stale
      ensures Valid()
      ensures r.Ok? <==> removal.Removed?
      ensures networks == if removal.Removed? then old(networks) - {name}
                          else old(networks)[name := Remains(old(networks)[name], removal)]
      ensures lost == old(lost) + old(LostBy(name, removal))
      ensures stale == if removal.RemovalFailed? && !removal.hosts then old(stale) + {name} else old(stale)
    {
      if removal.Removed? {
        RemoveDir(Host(), Octet(), networks, handed, lost, name);
        networks := networks - {name};
        return Ok(());
      }
      var dir := Remains(networks[name], removal);
      RemovalLoses(Host(), Octet(), networks, handed, lost, name, removal);
      lost := lost + LostSubnet(networks[name], removal, handed);
      stale := if removal.hosts then stale else stale + {name};
      PutHosts(networks, stale, name, dir);
      networks := networks[name := dir];
      return Err(RemoveFailed);
    }

    /** `before`, `after`: whether the commands before and after the allocation succeed; one before it puts
        the container's link on the bridge, which takes the bridge to be there. */
    method AttachContainer(name: string, before: bool, written: bool, after: bool)
      returns (r: Result<Address, NetworkError>)
      requires Valid()
      modifies this`networks, this`handed
      ensures Valid()
      ensures r.Ok? <==>
        && old(HasLive(name)) && HasBridge(name) && before && written && after && NextIp(old(networks)[name]) <= 254
      ensures r.Ok? ==> r.value == Address(old(networks)[name].info.value.gateway.third, NextIp(old(networks)[name]))
      ensures handed == if r.Ok? then old(handed) + [r.value] else old(handed)
      ensures networks ==
        if old(HasLive(name)) && HasBridge(name) && before && written && NextIp(old(networks)[name]) <= 254
        then old(networks)[name := Advanced(old(networks)[name])] else old(networks)
    {
      if name !in networks || networks[name].info.None? {
        return Err(NotFound);
      }
      var dir := networks[name];
      if BridgeName(name) !in bridges || !before {
        return Err(CommandFailed);
      }
      // An unreadable counter would start over at 2.
      CounterReads(dir.nextIp, FIRST_HOST);
      var counter := ReadCounter(dir.nextIp, FIRST_HOST);
      var nextOctet := if counter.Some? then counter.value else FIRST_HOST;
      if nextOctet > 254 {
        return Err(Exhausted);
      }
      var ip := Address(dir.info.value.gateway.third, nextOctet);
      if !written {
        return Err(WriteFailed);
      }
      AttachOnce(Host(), Octet(), networks, handed, lost, name);
      PutHosts(networks, stale, name, Advanced(dir));
      networks := networks[name := dir.(nextIp := Some(Show((nextOctet + 1) as nat)))];
      if !after {
        return Err(CommandFailed);
      }
      handed := handed + [ip];
      return Ok(ip);
    }

    // ---------- Name service ----------

    /** Rewrites files of a live network other than its counter. */
    method PutFiles(name: string, dir: NetworkDir)
      requires Allocated() && HasLive(name)
      requires Live(dir) && dir.nextIp == networks[name].nextIp
      requires dir.info.value.gateway == networks[name].info.value.gateway
      modifies this`networks
      ensures Allocated()
      ensures networks == old(networks)[name := dir]
    {
      KeepSubnet(Host(), Octet(), networks, handed, lost, name, dir);
      networks := networks[name := dir];
    }

    /** Rewrites a network's hosts file from its saved map. */
    method WriteHosts(name: string, write: HostsWrite) returns (r: Result<(), NetworkError>)
      requires Allocated() && HasLive(name) && HostsOk(networks, stale + {name})
      modifies this`networks, this`stale
      ensures Valid() && OnlyNameService(old(networks), networks, name)
      ensures stale + {name} == old(stale) + {name}
      ensures r.Ok? <==> write.Written?
      ensures name in stale <==> r.Err?
      ensures networks[name].pidFile == old(networks)[name].pidFile
    {
      if write.FailedLeaving? {
        PutHostsFile(name, write.hosts, false);
        return Err(WriteFailed);
      }
      var hosts := WriteHostsText(networks[name].info.value.containers);
      PutHostsFile(name, Some(hosts), true);
      return Ok(());
    }

    method PutHostsFile(name: string, hosts: Option<string>, right: bool)
      requires Allocated() && HasLive(name) && HostsOk(networks, stale + {name})
      requires right ==> HostsMatch(hosts, networks[name].info.value.containers)
      modifies this`networks, this`stale
      ensures Valid() && networks == old(networks)[name := old(networks)[name].(hosts := hosts)]
      ensures stale + {name} == old(stale) + {name} && (name in stale <==> !right)
    {
      var dir := networks[name].(hosts := hosts);
      stale := if right then stale - {name} else stale + {name};
      assert stale + {name} == old(stale) + {name};
      PutHosts(networks, stale, name, dir);
      PutFiles(name, dir);
    }

    /** Removes or writes the resolver's pid file. */
    method SetPidFile(name: string, present: bool)
      requires Valid() && HasLive(name)
      modifies this`networks
      ensures Valid() && OnlyNameService(old(networks), networks, name)
      ensures networks[name] == old(networks)[name].(pidFile := present)
    {
      var dir := networks[name].(pidFile := present);
      PutHosts(networks, stale, name, dir);
      PutFiles(name, dir);
    }

    /** Starts the resolver unless it runs already; only a start rewrites the hosts file. */
    method StartNetworkDns(name: string, world: DnsWorld) returns (r: Result<(), NetworkError>)
      requires Valid() && HasLive(name)
      modifies this`networks, this`stale
      ensures Valid() && OnlyNameService(old(networks), networks, name)
      ensures stale + {name} == old(stale) + {name}
      ensures var runs := old(networks)[name].pidFile && world.alive;
        && (runs ==> r.Ok? && networks == old(networks) && stale == old(stale))
        && (!runs && world.portBusy ==>
              r.Ok? && networks == old(networks)[name := old(networks)[name].(pidFile := false)] && stale == old(stale))
        && (!runs && !world.portBusy ==>
              && (r.Ok? <==> world.startWrite.Written? && world.spawned)
              && (name in stale <==> world.startWrite.FailedLeaving?)
              && networks[name].pidFile == (r.Ok? && world.pidWritten))
    {
      if networks[name].pidFile {
        if world.alive {
          return Ok(());
        }
        SetPidFile(name, false);
      }
      if world.portBusy {
        return Ok(());
      }
      ghost var cleared := networks;
      r := SpawnNetworkDns(name, world);
      OnlyNameServiceTwice(old(networks), cleared, networks, name);
    }

    /** The second half of `StartNetworkDns`: nothing answers on the gateway yet. */
    method SpawnNetworkDns(name: string, world: DnsWorld) returns (r: Result<(), NetworkError>)
      requires Valid() && HasLive(name)
      modifies this`networks, this`stale
      ensures Valid() && OnlyNameService(old(networks), networks, name)
      ensures stale + {name} == old(stale) + {name}
      ensures r.Ok? <==> world.startWrite.Written? && world.spawned
      ensures name in stale <==> world.startWrite.FailedLeaving?
      ensures networks[name].pidFile == if r.Ok? then world.pidWritten else old(networks)[name].pidFile
    {
      r := WriteHosts(name, world.startWrite);
      if r.Err? {
        return r;
      }
      if !world.spawned {
        return Err(CommandFailed);
      }
      SetPidFile(name, world.pidWritten);
    }

    /** Rewrites the hosts file and makes a resolver read it. */
    method UpdateNetworkDns(name: string, world: DnsWorld) returns (r: Result<(), NetworkError>)
      requires Allocated() && HasLive(name) && HostsOk(networks, stale + {name})
      modifies this`networks, this`stale
      ensures Valid() && OnlyNameService(old(networks), networks, name)
      ensures stale + {name} == old(stale) + {name}
      ensures r.Ok? <==> world.write.Written? && (old(networks)[name].pidFile || DnsStarts(world))
      ensures r.Ok? || (world.write.Written? && world.startWrite.Written?) ==> name !in stale
    {
      r := WriteHosts(name, world.write);
      if r.Ok? && !networks[name].pidFile {
        r := StartNetworkDns(name, world);
      }
    }

    /** Saves a changed container map, which leaves the hosts file to be rewritten. */
    method SaveContainers(name: string, containers: map<string, Address>)
      requires Valid() && HasLive(name)
      modifies this`networks
      ensures Allocated() && HostsOk(networks, stale + {name})
      ensures networks == old(networks)[name := WithContainers(old(networks)[name], containers)]
    {
      var dir := WithContainers(networks[name], containers);
      PutHosts(networks, stale + {name}, name, dir);
      PutFiles(name, dir);
    }

    /** `saved`: whether the metadata write succeeds. */
    method RegisterContainer(name: string, container: string, ip: Address, saved: bool, world: DnsWorld)
      returns (r: Result<(), NetworkError>)
      requires Valid()
      modifies this`networks, this`stale
      ensures Valid() && stale + {name} == old(stale) + {name}
      ensures SameExcept(old(networks), networks, name)
      ensures !old(HasLive(name)) || !saved ==> r.Err? && networks == old(networks) && stale == old(stale)
      ensures old(HasLive(name)) && saved ==>
        var containers := old(networks)[name].info.value.containers[container := ip];
        OnlyNameService(old(networks)[name := WithContainers(old(networks)[name], containers)], networks, name)
      ensures r.Ok? <==>
        old(HasLive(name)) && saved && world.write.Written? && (old(networks)[name].pidFile || DnsStarts(world))
      ensures r.Ok? ==> HasLive(name) && HostsMatch(networks[name].hosts, networks[name].info.value.containers)
      ensures old(HasLive(name)) && saved && world.write.Written? && world.startWrite.Written? ==> name !in stale
    {
      if name !in networks || networks[name].info.None? {
        return Err(NotFound);
      }
      if !saved {
        return Err(WriteFailed);
      }
      SaveContainers(name, networks[name].info.value.containers[container := ip]);
      r := UpdateNetworkDns(name, world);
    }

    method UnregisterContainer(name: string, container: string, saved: bool, world: DnsWorld)
      returns (r: Result<(), NetworkError>)
      requires Valid()
      modifies this`networks, this`stale
      ensures Valid() && stale + {name} == old(stale) + {name}
      ensures SameExcept(old(networks), networks, name)
      ensures !old(HasLive(name)) || !saved ==> r.Err? && networks == old(networks) && stale == old(stale)
      ensures old(HasLive(name)) && saved ==>
        var containers := old(networks)[name].info.value.containers - {container};
        OnlyNameService(old(networks)[name := WithContainers(old(networks)[name], containers)], networks, name)
      ensures r.Ok? <==>
        old(HasLive(name)) && saved && world.write.Written? && (old(networks)[name].pidFile || DnsStarts(world))
      ensures r.Ok? ==> HasLive(name) && HostsMatch(networks[name].hosts, networks[name].info.value.containers)
      ensures old(HasLive(name)) && saved && world.write.Written? && world.startWrite.Written? ==> name !in stale
      ensures r.Ok? && networks[name].info.value.containers == map[] ==> !networks[name].pidFile
    {
      if name !in networks || networks[name].info.None? {
        return Err(NotFound);
      }
      if !saved {
        return Err(WriteFailed);
      }
      SaveContainers(name, networks[name].info.value.containers - {container});
      ghost var saved := networks;
      r := UpdateNetworkDns(name, world);
      ghost var updated := networks;
      if r.Ok? && networks[name].info.value.containers == map[] {
        SetPidFile(name, false);
        OnlyNameServiceTwice(saved, updated, networks, name);
      }
    }

    // ---------- Whole runs ----------

    /** The operation hands out an address. */
    ghost predicate Gives(op: Operation)
      reads this
    {
      match op
      case Allocate(written) => Host() <= 254 && written
      case Attach(name, before, written, after) =>
        HasLive(name) && HasBridge(name) && before && written && after && NextIp(networks[name]) <= 254
      case _ => false
    }

    ghost predicate Creates(op: Operation)
      reads this
    {
      && op.Create? && op.name !in networks && |op.name| <= 8 && !HasBridge(op.name)
      && Octet() <= 254 && op.octetWritten && op.linkAdded && op.linkUp && op.saved
    }

    ghost predicate Removes(op: Operation)
      reads this`networks
    {
      op.Remove? && Removable(op.name) && op.removal.Removed?
    }

    /** What one operation does to the run: it hands out at most one address, loses a counter exactly by a
        removal that does, and leaves a hosts file wrong only by a failing write or removal. */
    method Step(op: Operation) returns (r: Option<Address>)
      requires Valid()
      modifies this
      ensures Valid()
      ensures r.Some? <==> old(Gives(op))
      ensures handed == if r.Some? then old(handed) + [r.value] else old(handed)
      ensures lost == old(lost) + if op.Remove? then old(LostBy(op.name, op.removal)) else {}
      ensures |lost| <= |old(lost)| + if TakesCounter(op) then 1 else 0
      ensures op.OtherLinks? ==> bridges == op.links
      ensures op.Create? ==> (HasLive(op.name) <==> old(HasLive(op.name) || Creates(op)))
      ensures op.Create? || op.Remove? ==>
        (op.name in networks <==> op.Create? || (op.name in old(networks) && !old(Removes(op))))
      ensures (op.Register? || op.Unregister?) && op.saved && old(HasLive(op.name)) ==>
        HasLive(op.name)
        && networks[op.name].info.value.containers == Entered(op, old(networks)[op.name].info.value.containers)
      ensures forall n :: Wrong(n) ==> MaybeWrong(op, n, old(Wrong(n)))
    {
      UnionSize(lost, if op.Remove? then LostBy(op.name, op.removal) else {});
      r := None;
      if op.Create? || op.Remove? {
        StepNetworks(op);
      } else if op.Register? {
        StepRegister(op);
      } else if op.Unregister? {
        StepUnregister(op);
      } else if op.StartDns? {
        StepDns(op);
      } else if op.OtherLinks? {
        bridges := op.links;
      } else {
        var ip: Result<Address, NetworkError>;
        if op.Allocate? {
          ip := AllocateIp(op.written);
        } else {
          ip := AttachContainer(op.name, op.before, op.written, op.after);
        }
        r := if ip.Ok? then Some(ip.value) else None;
      }
    }

    method StepNetworks(op: Operation)
      requires Valid() && (op.Create? || op.Remove?)
      modifies this
      ensures Valid() && handed == old(handed)
      ensures lost == old(lost) + if op.Remove? then old(LostBy(op.name, op.removal)) else {}
      ensures op.Create? ==> (HasLive(op.name) <==> old(HasLive(op.name) || Creates(op)))
      ensures op.name in networks <==> op.Create? || (op.name in old(networks) && !old(Removes(op)))
      ensures forall n :: Wrong(n) ==> MaybeWrong(op, n, old(Wrong(n)))
    {
      match op
      case Create(name, octetWritten, linkAdded, linkUp, hostsWrite, pidWritten, saved) =>
        var _ := CreateNetwork(name, octetWritten, linkAdded, linkUp, hostsWrite, pidWritten, saved);
      case Remove(name, linkDeleted, removal) =>
        var _ := RemoveNetwork(name, linkDeleted, removal);
    }

    method StepRegister(op: Operation)
      requires Valid() && op.Register?
      modifies this`networks, this`stale
      ensures Valid()
      ensures op.saved && old(HasLive(op.name)) ==>
        HasLive(op.name)
        && networks[op.name].info.value.containers == Entered(op, old(networks)[op.name].info.value.containers)
      ensures forall n :: Wrong(n) ==> MaybeWrong(op, n, old(Wrong(n)))
    {
      var _ := RegisterContainer(op.name, op.container, op.ip, op.saved, op.world);
    }

    method StepUnregister(op: Operation)
      requires Valid() && op.Unregister?
      modifies this`networks, this`stale
      ensures Valid()
      ensures op.saved && old(HasLive(op.name)) ==>
        HasLive(op.name)
        && networks[op.name].info.value.containers == Entered(op, old(networks)[op.name].info.value.containers)
      ensures forall n :: Wrong(n) ==> MaybeWrong(op, n, old(Wrong(n)))
    {
      var _ := UnregisterContainer(op.name, op.container, op.saved, op.world);
    }

    method StepDns(op: Operation)
      requires Valid() && op.StartDns?
      modifies this`networks, this`stale
      ensures Valid()
      ensures forall n :: Wrong(n) ==> MaybeWrong(op, n, old(Wrong(n)))
    {
      if op.name in networks && networks[op.name].info.Some? {
        var _ := StartNetworkDns(op.name, op.world);
      }
    }

    method Run(ops: seq<Operation>) returns (addresses: seq<Address>)
      requires Valid()
      modifies this
      ensures Valid()
      ensures handed == old(handed) + addresses
      ensures old(lost) <= lost
      ensures |lost| <= |old(lost)| + CountersTaken(ops)
      ensures forall n :: Wrong(n) ==> LastWriteFailed(ops, n, old(Wrong(n)))
      decreases |ops|
    {
      addresses := [];
      if ops != [] {
        addresses := Run(ops[..|ops| - 1]);
        var r := Step(ops[|ops| - 1]);
        addresses := addresses + if r.Some? then [r.value] else [];
      }
    }

    /** After any sequence of operations, failing or not: no address was handed out twice, whether on the
        default bridge or on networks that were removed and created again, except in a subnet whose counter
        a removal lost; every one lies in a usable range; and wherever the last write worked, the hosts file
        resolves names as the map does if and only if its names are plain. */
    method Execute(ops: seq<Operation>) returns (addresses: seq<Address>)
      requires Valid()
      modifies this
      ensures Valid()
      ensures handed == old(handed) + addresses && NoRepeats(handed, lost)
      ensures old(lost) <= lost
      ensures |lost| <= |old(lost)| + CountersTaken(ops)
      ensures forall a :: a in addresses ==>
        (a.third == 42 || 43 <= a.third <= 254) && 2 <= a.last <= 254
      ensures forall n :: n in networks && Live(networks[n]) && !LastWriteFailed(ops, n, old(Wrong(n))) ==>
        && networks[n].hosts.Some?
        && (Resolves(networks[n].hosts.value, networks[n].info.value.containers)
            <==> PlainNames(networks[n].info.value.containers))
    {
      addresses := Run(ops);
      assert forall a :: a in addresses ==> a in handed && HandedOk(a, Host(), Octet());
      forall n | n in networks && Live(networks[n]) && !LastWriteFailed(ops, n, old(Wrong(n)))
        ensures networks[n].hosts.Some?
        ensures Resolves(networks[n].hosts.value, networks[n].info.value.containers)
           <==> PlainNames(networks[n].info.value.containers)
      {
        assert !Wrong(n);
        LookupAgreesExactly(networks[n].hosts.value, networks[n].info.value.containers);
      }
    }

    /** One more container, if it gets an address, and what that leaves of `all`, the ones ahead. */
    method AttachOneMore(name: string, ghost all: seq<Address>, ghost n: nat) returns (more: seq<Address>)
      requires Valid() && HasLive(name) && n > 0 && all == Further(networks[name], HasBridge(name), n)
      modifies this`networks, this`handed
      ensures Valid() && HasLive(name) && handed == old(handed) + more
      ensures all == more + if more == [] then [] else Further(networks[name], HasBridge(name), n - 1)
    {
      var ip := AttachContainer(name, true, true, true);
      more := if ip.Ok? then [ip.value] else [];
    }

    /** `n` more containers of one network, in which every step works; `all` names what they get. */
    method AttachAgain(name: string, n: nat, ghost all: seq<Address>) returns (addresses: seq<Address>)
      requires Valid() && HasLive(name) && all == Further(networks[name], HasBridge(name), n)
      modifies this`networks, this`handed
      ensures Valid() && handed == old(handed) + addresses && addresses == all
      decreases n
    {
      addresses := [];
      if n > 0 {
        addresses := AttachOneMore(name, all, n);
        if addresses != [] {
          var more := AttachAgain(name, n - 1, all[|addresses|..]);
          Reassociate(old(handed), addresses, more);
          addresses := addresses + more;
        }
      }
    }
  }

  /** Network `web` with its first container. */
  method FirstContainer() returns (store: Store)
    ensures fresh(store) && store.Valid() && store.handed == [Address(43, 2)]
    ensures store.HasLive("web") && store.HasBridge("web")
    ensures store.networks["web"].info == Some(NetworkInfo(Address(43, 1), map[]))
  {
    store := new Store();
    var _ := store.CreateNetwork("web", true, true, true, Written, true, true);
    var _ := store.AttachContainer("web", true, true, true);
  }

  /** The container is entered in the network's map and taken out when it ends. */
  method ContainerEnds() returns (store: Store)
    ensures fresh(store) && store.Valid() && store.handed == [Address(43, 2)]
    ensures store.Removable("web") && store.HasBridge("web")
    ensures store.networks["web"].info.value.gateway == Address(43, 1)
  {
    store := FirstContainer();
    var world := DnsWorld(false, false, Written, Written, true, true);
    var _ := store.RegisterContainer("web", "a", Address(43, 2), true, world);
    var _ := store.UnregisterContainer("web", "a", true, world);
    NoneLeft("a", Address(43, 2));
  }

  lemma NoneLeft(name: string, ip: Address)
    ensures map[name := ip] - {name} == map[]
  {
  }

  /** Then the command that deletes its bridge fails, and so does the removal, after it has deleted the
      counter: the next container gets the first one's address. */
  method FirstAddressAgain() returns (store: Store)
    ensures fresh(store) && store.Valid()
    ensures store.handed == [Address(43, 2), Address(43, 2)]
  {
    store := ContainerEnds();
    var _ := store.RemoveNetwork("web", false, RemovalFailed(true, false, true, false));
    var _ := store.AttachContainer("web", true, true, true);
  }

  datatype Operation =
    | Allocate(written: bool)
    | Create(name: string, octetWritten: bool, linkAdded: bool, linkUp: bool, hostsWrite: HostsWrite,
             pidWritten: bool, saved: bool)
    | Remove(name: string, linkDeleted: bool, removal: Removal)
    | Attach(name: string, before: bool, written: bool, after: bool)
    | Register(name: string, container: string, ip: Address, saved: bool, world: DnsWorld)
    | Unregister(name: string, container: string, saved: bool, world: DnsWorld)
    | StartDns(name: string, world: DnsWorld)
      /** Bridges that come and go by other means, such as a restart of the machine. */
    | OtherLinks(links: set<string>)

  /** A network's map after its container was registered or unregistered. */
  function Entered(op: Operation, containers: map<string, Address>): map<string, Address>
    requires op.Register? || op.Unregister?
  {
    if op.Register? then containers[op.container := op.ip] else containers - {op.container}
  }

  /** A removal that takes a counter and leaves the metadata. */
  predicate TakesCounter(op: Operation) {
    op.Remove? && op.removal.RemovalFailed? && op.removal.info && !op.removal.nextIp
  }

  function CountersTaken(ops: seq<Operation>): nat {
    if ops == [] then 0
    else CountersTaken(ops[..|ops| - 1]) + if TakesCounter(ops[|ops| - 1]) then 1 else 0
  }

  lemma Reassociate<T>(a: seq<T>, b: seq<T>, c: seq<T>)
    ensures a + b + c == a + (b + c)
  {
  }

  lemma UnionSize(a: set<u8>, b: set<u8>)
    ensures |a + b| <= |a| + |b|
  {
    assert |a + b| == |a| + |b| - |a * b|;
  }

  /** The operation touches the network's hosts file. */
  predicate Concerns(op: Operation, name: string) {
    !op.Allocate? && !op.Attach? && !op.OtherLinks? && op.name == name
  }

  predicate WritesWork(op: Operation) {
    match op
    case Create(_, _, _, _, hostsWrite, _, _) => hostsWrite.Written?
    case Remove(_, _, removal) => removal.RemovalFailed? ==> removal.hosts
    case Register(_, _, _, saved, world) => saved ==> world.write.Written? && world.startWrite.Written?
    case Unregister(_, _, saved, world) => saved ==> world.write.Written? && world.startWrite.Written?
    case StartDns(_, world) => world.startWrite.Written?
    case _ => true
  }

  /** The operation rewrites a live network's hosts file, whatever it held. */
  predicate Rewrites(op: Operation) {
    (op.Register? || op.Unregister?) && op.saved
  }

  /** Whether the network's hosts file may be wrong after the operation. */
  predicate MaybeWrong(op: Operation, name: string, before: bool) {
    if Concerns(op, name) then !WritesWork(op) || (before && !Rewrites(op)) else before
  }

  /** The last operation that wrote the network's hosts file or had to failed; without one, as `before`. */
  predicate LastWriteFailed(ops: seq<Operation>, name: string, before: bool) {
    if ops == [] then before
    else MaybeWrong(ops[|ops| - 1], name, LastWriteFailed(ops[..|ops| - 1], name, before))
  }

  /** If every write to a network's hosts file works, the file is as right as before. */
  lemma {:induction false} AllWritesWork(ops: seq<Operation>, name: string, before: bool)
    requires forall op :: op in ops && Concerns(op, name) ==> WritesWork(op)
    ensures LastWriteFailed(ops, name, before) ==> before
  {
    if ops != [] {
      AllWritesWork(ops[..|ops| - 1], name, before);
    }
  }

  /** If some operation rewrites it, and works like all after it, the file is right. */
  lemma {:induction false} RewrittenSince(ops: seq<Operation>, name: string, before: bool, i: nat)
    requires i < |ops| && Concerns(ops[i], name) && Rewrites(ops[i])
    requires forall k :: i <= k < |ops| && Concerns(ops[k], name) ==> WritesWork(ops[k])
    ensures !LastWriteFailed(ops, name, before)
    decreases |ops|
  {
    if i < |ops| - 1 {
      RewrittenSince(ops[..|ops| - 1], name, before, i);
    }
  }

  /** A resolver that does not run yet answers afterwards: something listens already, or it is started. */
  predicate DnsStarts(world: DnsWorld) {
    world.portBusy || (world.startWrite.Written? && world.spawned)
  }

  function WithContainers(dir: NetworkDir, containers: map<string, Address>): NetworkDir
    requires Live(dir)
  {
    dir.(info := Some(dir.info.value.(containers := containers)))
  }

  lemma OnlyNameServiceTwice(a: map<string, NetworkDir>, b: map<string, NetworkDir>, c: map<string, NetworkDir>,
                             name: string)
    requires OnlyNameService(a, b, name) && OnlyNameService(b, c, name)
    ensures OnlyNameService(a, c, name)
  {
  }

  /** Nothing but `name`'s hosts and pid files differs. */
  ghost predicate OnlyNameService(a: map<string, NetworkDir>, b: map<string, NetworkDir>, name: string) {
    && SameExcept(a, b, name)
    && name in a && name in b
    && b[name].info == a[name].info && b[name].nextIp == a[name].nextIp
  }
}
