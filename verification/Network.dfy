/** Address allocation and name service of src/network.rs. All state lives in files: two counters,
    and one directory per named network. The code takes no locks, so each operation is one step. */
module Network {
  import opened Wrappers
  import opened Decimal
  import opened Hosts

  /** `network.json`; bridge name and subnet follow from the name and the gateway. */
  datatype NetworkInfo = NetworkInfo(gateway: Address, containers: map<string, Address>)

  /** The files in a network's directory. A creation that failed leaves it without `info`. */
  datatype NetworkDir = NetworkDir(
    info: Option<NetworkInfo>,
    nextIp: Option<string>,
    hosts: Option<string>,
    pidFile: bool)

  /** How the removal of a directory goes: it may fail with some of the files still there. */
  datatype Removal = Removed | RemovalFailed(info: bool, nextIp: bool, hosts: bool, pidFile: bool)

  datatype NetworkError =
    Exhausted | BadCounter | AlreadyExists | NotFound | InUse | CommandFailed | WriteFailed | RemoveFailed

  // ---------- Counter files ----------

  /** What an allocator reads: the number in the file, or `start` if there is no file. */
  function ReadCounter(file: Option<string>, start: u8): Option<u8> {
    match file
    case None => Some(start)
    case Some(text) =>
      match ParseUnsigned(text, U8_MAX)
      case None => None
      case Some(n) => Some(n as u8)
  }

  /** The file was last written by an allocator, or never. */
  ghost predicate CounterOk(file: Option<string>, start: u8) {
    file == None || exists n: nat :: start as nat <= n <= U8_MAX && file == Some(Show(n))
  }

  function CounterValue(file: Option<string>, start: u8): u8 {
    match ReadCounter(file, start)
    case None => start
    case Some(n) => n
  }

  lemma CounterReads(file: Option<string>, start: u8)
    requires CounterOk(file, start)
    ensures ReadCounter(file, start) == Some(CounterValue(file, start)) && start <= CounterValue(file, start)
  {
    if file.Some? {
      var n: nat :| start as nat <= n <= U8_MAX && file == Some(Show(n));
      ShowThenParse(n, U8_MAX);
    }
  }

  /** A file that holds no number from 0 to 255 is not readable. */
  lemma UnreadableCounter(text: string, start: u8)
    ensures ReadCounter(Some(text), start).None? <==> Numeral(text).None? || Numeral(text).value > 255
  {
  }

  lemma CounterWritten(n: u8, start: u8)
    requires start <= n
    ensures CounterOk(Some(Show(n as nat)), start) && CounterValue(Some(Show(n as nat)), start) == n
  {
    ShowThenParse(n as nat, U8_MAX);
  }

  // ---------- The allocation invariant ----------

  const DEFAULT_THIRD: u8 := 42
  const FIRST_HOST: u8 := 2
  const FIRST_NETWORK: u8 := 43

  predicate Live(dir: NetworkDir) {
    dir.info.Some?
  }

  ghost predicate NoDuplicates(s: seq<Address>) {
    forall i, j :: 0 <= i < j < |s| ==> s[i] != s[j]
  }

  /** `a` came from the default bridge, whose next host is `host`, or from a network below `octet`. */
  predicate HandedOk(a: Address, host: u8, octet: u8) {
    && FIRST_HOST <= a.last <= 254
    && (a.third == DEFAULT_THIRD ==> a.last < host)
    && (a.third != DEFAULT_THIRD ==> FIRST_NETWORK <= a.third < octet)
  }

  /** An address comes up twice only in a subnet whose counter was lost. */
  ghost predicate NoRepeats(s: seq<Address>, lost: set<u8>) {
    forall i, j :: 0 <= i < j < |s| && s[i] == s[j] ==> s[i].third in lost
  }

  /** The addresses handed out in a live network's subnet are all below its counter, unless that was lost. */
  ghost predicate DirOk(dir: NetworkDir, octet: u8, handed: seq<Address>, lost: set<u8>) {
    && CounterOk(dir.nextIp, FIRST_HOST)
    && (Live(dir) ==>
          && FIRST_NETWORK <= dir.info.value.gateway.third < octet
          && dir.info.value.gateway.last == 1
          && (dir.info.value.gateway.third !in lost ==> !CounterBehind(dir, handed)))
  }

  function NextIp(dir: NetworkDir): u8 {
    CounterValue(dir.nextIp, FIRST_HOST)
  }

  /** An address of the network was handed out that its counter has not passed. */
  ghost predicate CounterBehind(dir: NetworkDir, handed: seq<Address>) {
    Live(dir) && exists a :: a in handed && a.third == dir.info.value.gateway.third && NextIp(dir) <= a.last
  }

  ghost predicate DistinctSubnets(networks: map<string, NetworkDir>) {
    forall m, n :: m in networks && n in networks && m != n && Live(networks[m]) && Live(networks[n]) ==>
      networks[m].info.value.gateway.third != networks[n].info.value.gateway.third
  }

  /** `lost`: the subnets whose counter was lost with addresses handed out. */
  ghost predicate AllocOk(host: u8, octet: u8, networks: map<string, NetworkDir>, handed: seq<Address>,
                          lost: set<u8>)
  {
    && NoRepeats(handed, lost)
    && (forall t :: t in lost ==> FIRST_NETWORK <= t < octet)
    && (forall a :: a in handed ==> HandedOk(a, host, octet))
    && (forall n :: n in networks ==> DirOk(networks[n], octet, handed, lost))
    && DistinctSubnets(networks)
  }

  lemma HandOutDefault(host: u8, octet: u8, networks: map<string, NetworkDir>, handed: seq<Address>, lost: set<u8>)
    requires AllocOk(host, octet, networks, handed, lost) && FIRST_HOST <= host <= 254
    ensures AllocOk(host + 1, octet, networks, handed + [Address(DEFAULT_THIRD, host)], lost)
  {
    var a := Address(DEFAULT_THIRD, host);
    assert a !in handed by {
      assert a in handed ==> HandedOk(a, host, octet);
    }
    forall b | b in handed + [a]
      ensures HandedOk(b, host + 1, octet)
    {
      assert b in handed ==> HandedOk(b, host, octet);
    }
    forall n | n in networks
      ensures DirOk(networks[n], octet, handed + [a], lost)
    {
      assert DirOk(networks[n], octet, handed, lost);
    }
  }

  /** An octet that was handed out but not used is simply gone. */
  lemma BurnOctet(host: u8, octet: u8, networks: map<string, NetworkDir>, handed: seq<Address>, lost: set<u8>)
    requires AllocOk(host, octet, networks, handed, lost) && octet <= 254
    ensures AllocOk(host, octet + 1, networks, handed, lost)
  {
  }

  /** Replaces one directory by one that satisfies the invariant and stays in its own subnet. */
  lemma ReplaceDir(host: u8, octet: u8, networks: map<string, NetworkDir>, handed: seq<Address>,
                   lost: set<u8>, name: string, dir: NetworkDir)
    requires AllocOk(host, octet, networks, handed, lost) && DirOk(dir, octet, handed, lost)
    requires Live(dir) ==> forall m :: m in networks && m != name && Live(networks[m]) ==>
      networks[m].info.value.gateway.third != dir.info.value.gateway.third
    ensures AllocOk(host, octet, networks[name := dir], handed, lost)
  {
  }

  /** No address, no lost counter and no live network lies in the subnet with this third octet. */
  ghost predicate FreshOctet(octet: u8, networks: map<string, NetworkDir>, handed: seq<Address>, lost: set<u8>) {
    && octet !in lost
    && (forall a :: a in handed ==> a.third != octet)
    && (forall n :: n in networks && Live(networks[n]) ==> networks[n].info.value.gateway.third != octet)
  }

  /** The next octet was never used, not even by a removed network. */
  lemma NextOctetFresh(host: u8, octet: u8, networks: map<string, NetworkDir>, handed: seq<Address>, lost: set<u8>)
    requires AllocOk(host, octet, networks, handed, lost) && FIRST_NETWORK <= octet
    ensures FreshOctet(octet, networks, handed, lost)
  {
  }

  /** Changes that leave a live network's gateway and counter alone leave the allocation alone. */
  lemma KeepSubnet(host: u8, octet: u8, networks: map<string, NetworkDir>, handed: seq<Address>,
                   lost: set<u8>, name: string, dir: NetworkDir)
    requires AllocOk(host, octet, networks, handed, lost)
    requires name in networks && Live(networks[name]) && Live(dir)
    requires dir.nextIp == networks[name].nextIp
    requires dir.info.value.gateway == networks[name].info.value.gateway
    ensures AllocOk(host, octet, networks[name := dir], handed, lost)
  {
  }

  /** What a failed removal leaves of a directory. */
  function Remains(dir: NetworkDir, removal: Removal): (left: NetworkDir)
    requires removal.RemovalFailed?
    ensures !removal.info ==> left.info == None
    ensures !removal.nextIp ==> left.nextIp == None
    ensures !removal.hosts ==> left.hosts == None
    ensures !removal.pidFile ==> !left.pidFile
  {
    NetworkDir(if removal.info then dir.info else None, if removal.nextIp then dir.nextIp else None,
               if removal.hosts then dir.hosts else None, removal.pidFile && dir.pidFile)
  }

  /** The removal took a network's counter but left its metadata, and addresses of it were handed out. */
  ghost predicate CounterLost(dir: NetworkDir, removal: Removal, handed: seq<Address>) {
    && removal.RemovalFailed? && removal.info && !removal.nextIp
    && Live(dir) && exists a :: a in handed && a.third == dir.info.value.gateway.third
  }

  /** A removal that fails halfway leaves a counter behind if and only if it loses one; the allocation
      invariant then holds with that subnet among the lost ones, and not otherwise. */
  lemma RemoveHalfway(host: u8, octet: u8, networks: map<string, NetworkDir>, handed: seq<Address>, lost: set<u8>,
                      name: string, removal: Removal)
    requires AllocOk(host, octet, networks, handed, lost)
    requires name in networks && Live(networks[name]) && removal.RemovalFailed?
    ensures var left, third := Remains(networks[name], removal), networks[name].info.value.gateway.third;
      && AllocOk(host, octet, networks[name := left], handed, lost + {third})
      && (AllocOk(host, octet, networks[name := left], handed, lost)
          <==> third in lost || !CounterLost(networks[name], removal, handed))
      && (third !in lost ==> (CounterBehind(left, handed) <==> CounterLost(networks[name], removal, handed)))
  {
    var dir := networks[name];
    var left, third := Remains(dir, removal), dir.info.value.gateway.third;
    assert DirOk(dir, octet, handed, lost);
    LostBehind(dir, removal, octet, handed, lost, host);
    MoreLost(host, octet, networks, handed, lost, third);
    assert DirOk(left, octet, handed, lost + {third});
    ReplaceDir(host, octet, networks, handed, lost + {third}, name, left);
    if third in lost || !CounterLost(dir, removal, handed) {
      assert DirOk(left, octet, handed, lost);
      ReplaceDir(host, octet, networks, handed, lost, name, left);
    } else {
      assert !DirOk(left, octet, handed, lost);
      assert networks[name := left][name] == left;
    }
  }

  /** The subnet whose counter the removal loses, if it does. */
  ghost function LostSubnet(dir: NetworkDir, removal: Removal, handed: seq<Address>): set<u8> {
    if CounterLost(dir, removal, handed) then {dir.info.value.gateway.third} else {}
  }

  lemma RemovalLoses(host: u8, octet: u8, networks: map<string, NetworkDir>, handed: seq<Address>, lost: set<u8>,
                     name: string, removal: Removal)
    requires AllocOk(host, octet, networks, handed, lost)
    requires name in networks && Live(networks[name]) && removal.RemovalFailed?
    ensures AllocOk(host, octet, networks[name := Remains(networks[name], removal)], handed,
                    lost + LostSubnet(networks[name], removal, handed))
  {
    RemoveHalfway(host, octet, networks, handed, lost, name, removal);
    assert lost + {} == lost;
  }

  lemma LostBehind(dir: NetworkDir, removal: Removal, octet: u8, handed: seq<Address>, lost: set<u8>, host: u8)
    requires Live(dir) && removal.RemovalFailed? && DirOk(dir, octet, handed, lost)
    requires forall a :: a in handed ==> HandedOk(a, host, octet)
    ensures CounterLost(dir, removal, handed) ==> CounterBehind(Remains(dir, removal), handed)
    ensures dir.info.value.gateway.third !in lost && CounterBehind(Remains(dir, removal), handed) ==>
      CounterLost(dir, removal, handed)
  {
    if CounterLost(dir, removal, handed) {
      var a :| a in handed && a.third == dir.info.value.gateway.third;
      assert HandedOk(a, host, octet);
    }
  }

  lemma MoreLost(host: u8, octet: u8, networks: map<string, NetworkDir>, handed: seq<Address>, lost: set<u8>,
                 third: u8)
    requires AllocOk(host, octet, networks, handed, lost) && FIRST_NETWORK <= third < octet
    ensures AllocOk(host, octet, networks, handed, lost + {third})
  {
    forall n | n in networks
      ensures DirOk(networks[n], octet, handed, lost + {third})
    {
      assert DirOk(networks[n], octet, handed, lost);
    }
  }

  lemma RemoveDir(host: u8, octet: u8, networks: map<string, NetworkDir>, handed: seq<Address>, lost: set<u8>,
                  name: string)
    requires AllocOk(host, octet, networks, handed, lost)
    ensures AllocOk(host, octet, networks - {name}, handed, lost)
  {
  }

  /** The directory after an attach: the counter moves on. */
  function Advanced(dir: NetworkDir): NetworkDir
    requires NextIp(dir) <= 254
  {
    dir.(nextIp := Some(Show((NextIp(dir) + 1) as nat)))
  }

  /** A live network's counter moves on; unless it was lost, the address it gives is new. */
  lemma AdvanceCounter(host: u8, octet: u8, networks: map<string, NetworkDir>, handed: seq<Address>, lost: set<u8>,
                       name: string)
    requires AllocOk(host, octet, networks, handed, lost)
    requires name in networks && Live(networks[name]) && NextIp(networks[name]) <= 254
    ensures var dir := Advanced(networks[name]);
      && AllocOk(host, octet, networks[name := dir], handed, lost)
      && NextIp(dir) == NextIp(networks[name]) + 1
    ensures FIRST_HOST <= NextIp(networks[name])
    ensures var third := networks[name].info.value.gateway.third;
      third !in lost ==> Address(third, NextIp(networks[name])) !in handed
  {
    var dir := networks[name];
    assert DirOk(dir, octet, handed, lost);
    CounterReads(dir.nextIp, FIRST_HOST);
    CounterWritten(NextIp(dir) + 1, FIRST_HOST);
    assert DirOk(Advanced(dir), octet, handed, lost);
    ReplaceDir(host, octet, networks, handed, lost, name, Advanced(dir));
  }

  /** A new address below its network's counter may be handed out. */
  lemma HandOutNamed(host: u8, octet: u8, networks: map<string, NetworkDir>, handed: seq<Address>,
                     lost: set<u8>, name: string, a: Address)
    requires AllocOk(host, octet, networks, handed, lost) && (a.third !in lost ==> a !in handed)
    requires name in networks && Live(networks[name]) && a.third == networks[name].info.value.gateway.third
    requires FIRST_HOST <= a.last <= 254 && a.last < NextIp(networks[name])
    ensures AllocOk(host, octet, networks, handed + [a], lost)
  {
  }

  /** An attach moves the counter on, whether or not it gets to hand out the address. */
  lemma AttachOnce(host: u8, octet: u8, networks: map<string, NetworkDir>, handed: seq<Address>, lost: set<u8>,
                   name: string)
    requires AllocOk(host, octet, networks, handed, lost)
    requires name in networks && Live(networks[name]) && NextIp(networks[name]) <= 254
    ensures var dir := networks[name];
      var after, ip := networks[name := Advanced(dir)], Address(dir.info.value.gateway.third, NextIp(dir));
      && AllocOk(host, octet, after, handed, lost)
      && AllocOk(host, octet, after, handed + [ip], lost)
  {
    var dir := networks[name];
    AdvanceCounter(host, octet, networks, handed, lost, name);
    HandOutNamed(host, octet, networks[name := Advanced(dir)], handed, lost, name,
                 Address(dir.info.value.gateway.third, NextIp(dir)));
  }

  // ---------- Bridges ----------

  /** The bridge of a named network: the first ten bytes of its name. */
  function BridgeName(name: string): string {
    "corten-" + if |name| < 10 then name else name[..10]
  }

  /** Linux takes interface names of up to 15 bytes (IFNAMSIZ). */
  const MAX_LINK_NAME: nat := 15

  /** Only names of up to eight bytes get a bridge, and no two of them the same. */
  lemma BridgeNames(m: string, n: string)
    ensures |BridgeName(n)| <= MAX_LINK_NAME <==> |n| <= 8
    ensures BridgeName(n) == if |n| <= 10 then "corten-" + n else "corten-" + n[..10]
    ensures |m| <= 8 && |n| <= 8 && BridgeName(m) == BridgeName(n) ==> m == n
  {
    if |m| <= 8 && |n| <= 8 {
      assert BridgeName(m)[7..] == m && BridgeName(n)[7..] == n;
    }
  }

  // ---------- Attaching again and again ----------

  /** What `n` further containers of a network get, if every step works; none without its bridge. */
  function Further(dir: NetworkDir, bridge: bool, n: nat): seq<Address>
    decreases n
  {
    if !Live(dir) || !bridge || n == 0 || NextIp(dir) > 254 then []
    else [Address(dir.info.value.gateway.third, NextIp(dir))] + Further(Advanced(dir), bridge, n - 1)
  }

  lemma AdvancedNext(dir: NetworkDir)
    requires CounterOk(dir.nextIp, FIRST_HOST) && NextIp(dir) <= 254
    ensures CounterOk(Advanced(dir).nextIp, FIRST_HOST) && NextIp(Advanced(dir)) == NextIp(dir) + 1
  {
    CounterReads(dir.nextIp, FIRST_HOST);
    CounterWritten(NextIp(dir) + 1, FIRST_HOST);
  }

  lemma {:induction false} FurtherLength(dir: NetworkDir, n: nat)
    requires Live(dir) && CounterOk(dir.nextIp, FIRST_HOST)
    ensures var free := 255 - NextIp(dir) as nat; |Further(dir, true, n)| == if n < free then n else free
    decreases n
  {
    if n > 0 && NextIp(dir) <= 254 {
      AdvancedNext(dir);
      FurtherLength(Advanced(dir), n - 1);
    }
  }

  /** They get the addresses from the counter up to 254, in order. */
  lemma {:induction false} FurtherAt(dir: NetworkDir, n: nat, k: nat)
    requires Live(dir) && CounterOk(dir.nextIp, FIRST_HOST)
    requires k < |Further(dir, true, n)|
    ensures var a := Further(dir, true, n)[k];
      a.third == dir.info.value.gateway.third && a.last as nat == NextIp(dir) as nat + k
    decreases n
  {
    AdvancedNext(dir);
    if k > 0 {
      FurtherAt(Advanced(dir), n - 1, k - 1);
    }
  }

  /** As long as no address came up twice, one will, in some number of further containers, if and only if
      the network's bridge is there and its counter is behind. */
  lemma RepeatsExactly(dir: NetworkDir, bridge: bool, handed: seq<Address>)
    requires CounterOk(dir.nextIp, FIRST_HOST)
    requires NoDuplicates(handed) && forall a :: a in handed ==> a.last <= 254
    ensures (exists n: nat :: !NoDuplicates(handed + Further(dir, bridge, n)))
       <==> bridge && CounterBehind(dir, handed)
  {
    if bridge && CounterBehind(dir, handed) {
      var a :| a in handed && a.third == dir.info.value.gateway.third && NextIp(dir) <= a.last;
      GivenAgain(dir, handed, a);
    } else {
      forall n: nat
        ensures NoDuplicates(handed + Further(dir, bridge, n))
      {
        AllNew(dir, bridge, handed, n);
      }
    }
  }

  lemma GivenAgain(dir: NetworkDir, handed: seq<Address>, a: Address)
    requires Live(dir) && CounterOk(dir.nextIp, FIRST_HOST)
    requires a in handed && a.third == dir.info.value.gateway.third && NextIp(dir) <= a.last <= 254
    ensures exists n: nat :: !NoDuplicates(handed + Further(dir, true, n))
  {
    var k := (a.last - NextIp(dir)) as nat;
    FurtherLength(dir, k + 1);
    FurtherAt(dir, k + 1, k);
    var all := handed + Further(dir, true, k + 1);
    var i :| 0 <= i < |handed| && handed[i] == a;
    assert all[i] == all[|handed| + k];
  }

  lemma AllNew(dir: NetworkDir, bridge: bool, handed: seq<Address>, n: nat)
    requires CounterOk(dir.nextIp, FIRST_HOST) && NoDuplicates(handed)
    requires !(bridge && CounterBehind(dir, handed))
    ensures NoDuplicates(handed + Further(dir, bridge, n))
  {
    var further := Further(dir, bridge, n);
    forall i, j | 0 <= i < j < |handed + further|
      ensures (handed + further)[i] != (handed + further)[j]
    {
      if j >= |handed| {
        FurtherAt(dir, n, j - |handed|);
        if i >= |handed| {
          FurtherAt(dir, n, i - |handed|);
        } else {
          assert handed[i] in handed;
        }
      }
    }
  }

  /** After a removal that fails halfway, before which nothing came up twice or was lost, some number of
      further containers gets an address a second time if and only if the counter is lost and the bridge
      is still there. */
  lemma LostCounterRepeats(host: u8, octet: u8, networks: map<string, NetworkDir>, handed: seq<Address>,
                           lost: set<u8>, name: string, removal: Removal, bridge: bool)
    requires AllocOk(host, octet, networks, handed, lost) && NoDuplicates(handed)
    requires name in networks && Live(networks[name]) && networks[name].info.value.gateway.third !in lost
    requires removal.RemovalFailed?
    ensures (exists n: nat :: !NoDuplicates(handed + Further(Remains(networks[name], removal), bridge, n)))
       <==> CounterLost(networks[name], removal, handed) && bridge
  {
    var dir := networks[name];
    assert DirOk(dir, octet, handed, lost);
    RemoveHalfway(host, octet, networks, handed, lost, name, removal);
    assert forall a :: a in handed ==> HandedOk(a, host, octet);
    RepeatsExactly(Remains(dir, removal), bridge, handed);
  }

  // ---------- Hosts files ----------

  /** Every live network's file is right, except where the last write to it failed or a failed removal took it. */
  ghost predicate HostsOk(networks: map<string, NetworkDir>, stale: set<string>) {
    forall n :: n in networks && Live(networks[n]) && n !in stale ==>
      HostsMatch(networks[n].hosts, networks[n].info.value.containers)
  }

  lemma PutHosts(networks: map<string, NetworkDir>, stale: set<string>, name: string, dir: NetworkDir)
    requires HostsOk(networks, stale + {name})
    requires Live(dir) && name !in stale ==> HostsMatch(dir.hosts, dir.info.value.containers)
    ensures HostsOk(networks[name := dir], stale)
  {
  }

  /** The two maps differ at most at `name`. */
  ghost predicate SameExcept<T>(a: map<string, T>, b: map<string, T>, name: string) {
    forall n :: n != name ==> (n in a <==> n in b) && (n in a ==> a[n] == b[n])
  }

  /** What the world does during a DNS update: a file write works or leaves anything behind. */
  datatype HostsWrite = Written | FailedLeaving(hosts: Option<string>)

  datatype DnsWorld = DnsWorld(alive: bool, portBusy: bool, write: HostsWrite, startWrite: HostsWrite,
                               spawned: bool, pidWritten: bool)
}
