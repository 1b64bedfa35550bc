/** The iptables chains that src/network.rs edits: inserts at the head, deletes of the first equal
    rule, and a flush that lists a chain and deletes until nothing matches. */
module Firewall {
  import opened Wrappers
  import opened Decimal
  import opened Hosts
  import opened Iptables

  // ---------- Chains ----------

  /** `iptables -D`: removes the first rule equal to `r`; without one the command fails and nothing changes. */
  function DeleteFirst<T(==)>(chain: seq<T>, r: T): (rest: seq<T>)
    ensures r !in chain ==> rest == chain
    ensures multiset(rest) == multiset(chain) - multiset{r}
  {
    if chain == [] then []
    else
      assert chain == [chain[0]] + chain[1..];
      if chain[0] == r then chain[1..] else [chain[0]] + DeleteFirst(chain[1..], r)
  }

  function DeleteAll<T(==)>(chain: seq<T>, rules: seq<T>): seq<T>
    decreases |rules|
  {
    if rules == [] then chain else DeleteAll(DeleteFirst(chain, rules[0]), rules[1..])
  }

  /** `iptables -I`, once per rule: each goes to the head. */
  function InsertAll<T>(chain: seq<T>, rules: seq<T>): seq<T>
    decreases |rules|
  {
    if rules == [] then chain else InsertAll([rules[0]] + chain, rules[1..])
  }

  lemma HeadCounts<T>(s: seq<T>)
    requires s != []
    ensures multiset(s) == multiset{s[0]} + multiset(s[1..])
  {
    assert s == [s[0]] + s[1..];
  }

  lemma MinusTwice<T>(m: multiset<T>, a: multiset<T>, b: multiset<T>)
    ensures m - a - b == m - (a + b)
  {
  }

  lemma {:induction false} InsertAllCounts<T>(chain: seq<T>, rules: seq<T>)
    ensures multiset(InsertAll(chain, rules)) == multiset(chain) + multiset(rules)
    decreases |rules|
  {
    if rules != [] {
      InsertAllCounts([rules[0]] + chain, rules[1..]);
      HeadCounts(rules);
    }
  }

  lemma {:induction false} DeleteAllCounts<T>(chain: seq<T>, rules: seq<T>)
    ensures multiset(DeleteAll(chain, rules)) == multiset(chain) - multiset(rules)
    decreases |rules|
  {
    if rules != [] {
      DeleteAllCounts(DeleteFirst(chain, rules[0]), rules[1..]);
      HeadCounts(rules);
      MinusTwice(multiset(chain), multiset{rules[0]}, multiset(rules[1..]));
    }
  }

  lemma {:induction false} DeleteFromFront<T>(front: seq<T>, chain: seq<T>, r: T)
    requires r in front
    ensures DeleteFirst(front + chain, r) == DeleteFirst(front, r) + chain
  {
    assert (front + chain)[1..] == front[1..] + chain;
    if front[0] != r {
      DeleteFromFront(front[1..], chain, r);
    }
  }

  lemma {:induction false} DeleteWholeFront<T>(front: seq<T>, chain: seq<T>, rules: seq<T>)
    requires multiset(front) == multiset(rules)
    ensures DeleteAll(front + chain, rules) == chain
    decreases |rules|
  {
    if rules == [] {
      assert |front| == |multiset(front)| == 0;
      assert front + chain == chain;
    } else {
      assert rules == [rules[0]] + rules[1..];
      assert rules[0] in multiset(front);
      DeleteFromFront(front, chain, rules[0]);
      DeleteWholeFront(DeleteFirst(front, rules[0]), chain, rules[1..]);
    }
  }

  lemma {:induction false} InsertedFront<T>(chain: seq<T>, rules: seq<T>) returns (front: seq<T>)
    ensures InsertAll(chain, rules) == front + chain && multiset(front) == multiset(rules)
    decreases |rules|
  {
    front := [];
    if rules == [] {
      assert front + chain == chain;
    } else {
      var more := InsertedFront([rules[0]] + chain, rules[1..]);
      front := more + [rules[0]];
      assert front + chain == more + ([rules[0]] + chain);
      assert rules == [rules[0]] + rules[1..];
    }
  }

  /** Whatever the rules, equal ones included, and whatever the chain already holds: inserting them
      and deleting them again restores the chain, in its order. */
  lemma InsertThenDelete<T>(chain: seq<T>, rules: seq<T>)
    ensures DeleteAll(InsertAll(chain, rules), rules) == chain
  {
    var front := InsertedFront(chain, rules);
    DeleteWholeFront(front, chain, rules);
  }

  // ---------- Port forwarding ----------

  /** A host address without a comma, which iptables would take as a list of addresses. */
  type HostIp = s: string | ',' !in s witness ""

  datatype PortMapping = PortMapping(hostIp: HostIp, hostPort: nat, containerPort: nat)

  /** What a rule in a chain matches; a rule without `-d` matches any address. */
  type RuleDest = d: Dest | !d.Unread? witness AnyAddress

  datatype Rule = Dnat(dest: RuleDest, dport: nat, toIp: string, toPort: nat) | Foreign(text: string)

  /** The rule inserted into PREROUTING and OUTPUT, and the one deleted from PREROUTING. */
  function ForwardRule(ip: string, port: PortMapping): Rule {
    Dnat(AnyAddress, port.hostPort, ip, port.containerPort)
  }

  /** The rule that cleanup deletes from OUTPUT: it names the host address, which the insert did not. The
      command fails if it cannot read that address. */
  function OutputDeleteRule(ip: string, port: PortMapping): Option<Rule> {
    var dest := ReadDest(port.hostIp);
    if dest.Unread? then None else Some(Dnat(dest, port.hostPort, ip, port.containerPort))
  }

  function ToSeq<T>(o: Option<T>): seq<T> {
    match o
    case None => []
    case Some(x) => [x]
  }

  function ForwardRules(ip: string, ports: seq<PortMapping>): seq<Rule> {
    seq(|ports|, i requires 0 <= i < |ports| => ForwardRule(ip, ports[i]))
  }

  function OutputDeleteRules(ip: string, ports: seq<PortMapping>): seq<Rule> {
    if ports == [] then []
    else
      OutputDeleteRules(ip, ports[..|ports| - 1]) + ToSeq(OutputDeleteRule(ip, ports[|ports| - 1]))
  }

  /** The rules that reach OUTPUT when the inserts of the ports numbered in `fails` fail. */
  function OutputInserted(ip: string, ports: seq<PortMapping>, fails: set<nat>): seq<Rule> {
    if ports == [] then []
    else
      var i := |ports| - 1;
      OutputInserted(ip, ports[..i], fails) + if i in fails then [] else [ForwardRule(ip, ports[i])]
  }

  lemma RulesOfNextPort(ip: string, ports: seq<PortMapping>, fails: set<nat>, i: nat)
    requires i < |ports|
    ensures ForwardRules(ip, ports[..i + 1]) == ForwardRules(ip, ports[..i]) + [ForwardRule(ip, ports[i])]
    ensures OutputDeleteRules(ip, ports[..i + 1])
         == OutputDeleteRules(ip, ports[..i]) + ToSeq(OutputDeleteRule(ip, ports[i]))
    ensures OutputInserted(ip, ports[..i + 1], fails)
         == OutputInserted(ip, ports[..i], fails) + if i in fails then [] else [ForwardRule(ip, ports[i])]
  {
    var next := ports[..i + 1];
    assert next[..|next| - 1] == ports[..i];
  }

  /** No failing insert: both chains gain the same rules. */
  lemma {:induction false} AllInserted(ip: string, ports: seq<PortMapping>)
    ensures OutputInserted(ip, ports, {}) == ForwardRules(ip, ports)
    decreases |ports|
  {
    if ports != [] {
      var i := |ports| - 1;
      AllInserted(ip, ports[..i]);
      RulesOfNextPort(ip, ports, {}, i);
      assert ports[..i + 1] == ports;
    }
  }

  /** The two nat chains with DNAT rules. */
  class NatTable {
    var prerouting: seq<Rule>
    var output: seq<Rule>

    /** `failAt`: the first port whose PREROUTING insert fails, ending the setup. `outputFails`: the ports
        whose OUTPUT insert fails, which is ignored. */
    method SetupPortForwarding(ip: string, ports: seq<PortMapping>, failAt: nat, outputFails: set<nat>)
      returns (ok: bool)
      modifies this
      ensures ok <==> failAt >= |ports|
      ensures var done := if ok then ports else ports[..failAt];
        && prerouting == InsertAll(old(prerouting), ForwardRules(ip, done))
        && output == InsertAll(old(output), OutputInserted(ip, done, outputFails))
      ensures var n := if ok then |ports| else failAt;
        && |prerouting| == n + |old(prerouting)| && prerouting[n..] == old(prerouting)
        && (forall i :: 0 <= i < n ==>
              prerouting[n - 1 - i] == Dnat(AnyAddress, ports[i].hostPort, ip, ports[i].containerPort))
        && (outputFails == {} ==> output == prerouting[..n] + old(output))
    {
      var i := 0;
      while i < |ports|
        invariant 0 <= i <= |ports| && i <= failAt
        invariant prerouting == InsertAll(old(prerouting), ForwardRules(ip, ports[..i]))
        invariant output == InsertAll(old(output), OutputInserted(ip, ports[..i], outputFails))
      {
        if i == failAt {
          SetupInserts(old(prerouting), old(output), ip, ports[..i], outputFails);
          return false;
        }
        var rule := ForwardRule(ip, ports[i]);
        InsertNextPort(old(prerouting), ip, ports, i);
        InsertNextOutput(old(output), ip, ports, outputFails, i);
        prerouting := [rule] + prerouting;
        if i !in outputFails {
          output := [rule] + output;
        }
        i := i + 1;
      }
      assert ports[..i] == ports;
      SetupInserts(old(prerouting), old(output), ip, ports, outputFails);
      return true;
    }

    method CleanupPortForwarding(ip: string, ports: seq<PortMapping>)
      modifies this
      ensures prerouting == DeleteAll(old(prerouting), ForwardRules(ip, ports))
      ensures output == DeleteAll(old(output), OutputDeleteRules(ip, ports))
    {
      for i := 0 to |ports|
        invariant prerouting == DeleteAll(old(prerouting), ForwardRules(ip, ports[..i]))
        invariant output == DeleteAll(old(output), OutputDeleteRules(ip, ports[..i]))
      {
        DeleteNextPort(old(prerouting), ip, ports, i);
        DeleteNextOutput(old(output), ip, ports, i);
        prerouting := DeleteFirst(prerouting, ForwardRule(ip, ports[i]));
        var rule := OutputDeleteRule(ip, ports[i]);
        if rule.Some? {
          output := DeleteFirst(output, rule.value);
        }
      }
      assert ports[..|ports|] == ports;
    }
  }

  /** What a setup inserts, rule by rule. */
  lemma SetupInserts(prerouting: seq<Rule>, output: seq<Rule>, ip: string, ports: seq<PortMapping>, fails: set<nat>)
    ensures var n, after := |ports|, InsertAll(prerouting, ForwardRules(ip, ports));
      && |after| == n + |prerouting| && after[n..] == prerouting
      && (forall i :: 0 <= i < n ==>
            after[n - 1 - i] == Dnat(AnyAddress, ports[i].hostPort, ip, ports[i].containerPort))
      && (fails == {} ==> InsertAll(output, OutputInserted(ip, ports, fails)) == after[..n] + output)
  {
    var n, after := |ports|, InsertAll(prerouting, ForwardRules(ip, ports));
    InsertedInFront(prerouting, ForwardRules(ip, ports));
    InsertedInFront(output, ForwardRules(ip, ports));
    AllInserted(ip, ports);
    forall i | 0 <= i < n
      ensures after[n - 1 - i] == Dnat(AnyAddress, ports[i].hostPort, ip, ports[i].containerPort)
    {
      ReversedAt(ForwardRules(ip, ports), i);
    }
  }

  function Reversed<T>(s: seq<T>): (r: seq<T>)
    ensures |r| == |s|
  {
    if s == [] then [] else Reversed(s[1..]) + [s[0]]
  }

  lemma {:induction false} ReversedAt<T>(s: seq<T>, i: nat)
    requires i < |s|
    ensures Reversed(s)[|s| - 1 - i] == s[i]
  {
    if i > 0 {
      ReversedAt(s[1..], i - 1);
    }
  }

  lemma {:induction false} InsertedInFront<T>(chain: seq<T>, rules: seq<T>)
    ensures InsertAll(chain, rules) == Reversed(rules) + chain
    decreases |rules|
  {
    if rules != [] {
      InsertedInFront([rules[0]] + chain, rules[1..]);
    }
  }

  lemma {:induction false} InsertOneMore<T>(chain: seq<T>, rules: seq<T>, r: T)
    ensures InsertAll(chain, rules + [r]) == [r] + InsertAll(chain, rules)
    decreases |rules|
  {
    if rules == [] {
      assert (rules + [r])[1..] == [];
    } else {
      assert (rules + [r])[1..] == rules[1..] + [r];
      InsertOneMore([rules[0]] + chain, rules[1..], r);
    }
  }

  lemma {:induction false} DeleteOneMore<T>(chain: seq<T>, rules: seq<T>, r: T)
    ensures DeleteAll(chain, rules + [r]) == DeleteFirst(DeleteAll(chain, rules), r)
    decreases |rules|
  {
    if rules == [] {
      assert (rules + [r])[1..] == [];
    } else {
      assert (rules + [r])[1..] == rules[1..] + [r];
      DeleteOneMore(DeleteFirst(chain, rules[0]), rules[1..], r);
    }
  }

  lemma InsertNextPort(chain: seq<Rule>, ip: string, ports: seq<PortMapping>, i: nat)
    requires i < |ports|
    ensures InsertAll(chain, ForwardRules(ip, ports[..i + 1]))
         == [ForwardRule(ip, ports[i])] + InsertAll(chain, ForwardRules(ip, ports[..i]))
  {
    RulesOfNextPort(ip, ports, {}, i);
    InsertOneMore(chain, ForwardRules(ip, ports[..i]), ForwardRule(ip, ports[i]));
  }

  lemma InsertNextOutput(chain: seq<Rule>, ip: string, ports: seq<PortMapping>, fails: set<nat>, i: nat)
    requires i < |ports|
    ensures var earlier := InsertAll(chain, OutputInserted(ip, ports[..i], fails));
      InsertAll(chain, OutputInserted(ip, ports[..i + 1], fails))
      == if i in fails then earlier else [ForwardRule(ip, ports[i])] + earlier
  {
    RulesOfNextPort(ip, ports, fails, i);
    var rules := OutputInserted(ip, ports[..i], fails);
    InsertOneMore(chain, rules, ForwardRule(ip, ports[i]));
    assert rules + [] == rules;
  }

  lemma DeleteNextPort(chain: seq<Rule>, ip: string, ports: seq<PortMapping>, i: nat)
    requires i < |ports|
    ensures DeleteAll(chain, ForwardRules(ip, ports[..i + 1]))
         == DeleteFirst(DeleteAll(chain, ForwardRules(ip, ports[..i])), ForwardRule(ip, ports[i]))
  {
    RulesOfNextPort(ip, ports, {}, i);
    DeleteOneMore(chain, ForwardRules(ip, ports[..i]), ForwardRule(ip, ports[i]));
  }

  lemma DeleteNextOutput(chain: seq<Rule>, ip: string, ports: seq<PortMapping>, i: nat)
    requires i < |ports|
    ensures var rule, earlier := OutputDeleteRule(ip, ports[i]), DeleteAll(chain, OutputDeleteRules(ip, ports[..i]));
      DeleteAll(chain, OutputDeleteRules(ip, ports[..i + 1]))
      == if rule.Some? then DeleteFirst(earlier, rule.value) else earlier
  {
    RulesOfNextPort(ip, ports, {}, i);
    DeleteMaybeMore(chain, OutputDeleteRules(ip, ports[..i]), OutputDeleteRule(ip, ports[i]));
  }

  lemma DeleteMaybeMore<T>(chain: seq<T>, rules: seq<T>, r: Option<T>)
    ensures DeleteAll(chain, rules + ToSeq(r))
         == if r.Some? then DeleteFirst(DeleteAll(chain, rules), r.value) else DeleteAll(chain, rules)
  {
    if r.Some? {
      DeleteOneMore(chain, rules, r.value);
    } else {
      assert rules + [] == rules;
    }
  }

  // ---------- Where packets go ----------

  /** A TCP packet to an address and a port, and where a rule sends it. */
  datatype Packet = Packet(dst: Quad, port: nat)
  datatype Target = Target(ip: string, port: nat)

  /** What the rules that are not ours do with a packet, if they match it. */
  type Others = (string, Packet) -> Option<Target>

  function Sends(rule: Rule, packet: Packet, others: Others): Option<Target> {
    match rule
    case Dnat(dest, dport, toIp, toPort) =>
      if dport == packet.port && (dest.AnyAddress? || Masked(packet.dst, dest.mask) == dest.addr)
      then Some(Target(toIp, toPort)) else None
    case Foreign(text) => others(text, packet)
  }

  /** The first rule that matches decides. */
  function Route(chain: seq<Rule>, packet: Packet, others: Others): Option<Target> {
    if chain == [] then None
    else
      var first := Sends(chain[0], packet, others);
      if first.Some? then first else Route(chain[1..], packet, others)
  }

  lemma RouteCons(rule: Rule, chain: seq<Rule>, packet: Packet, others: Others)
    ensures Route([rule] + chain, packet, others)
         == var first := Sends(rule, packet, others); if first.Some? then first else Route(chain, packet, others)
  {
    assert ([rule] + chain)[1..] == chain;
  }

  /** After a setup, whatever the chain held, a packet to a mapped host port goes to the container's address
      and port of the last such mapping, whatever address it was sent to; any other goes where it went. */
  lemma TrafficForwarded(chain: seq<Rule>, ip: string, ports: seq<PortMapping>, packet: Packet, others: Others)
    ensures var after := InsertAll(chain, ForwardRules(ip, ports));
      && (forall i :: 0 <= i < |ports| && ports[i].hostPort == packet.port
                      && (forall j :: i < j < |ports| ==> ports[j].hostPort != packet.port) ==>
            Route(after, packet, others) == Some(Target(ip, ports[i].containerPort)))
      && ((forall i :: 0 <= i < |ports| ==> ports[i].hostPort != packet.port) ==>
            Route(after, packet, others) == Route(chain, packet, others))
  {
    ForwardedTo(chain, ip, ports, |ports|, packet, others);
    assert ports[..|ports|] == ports;
  }

  /** The last of the first `n` mappings of the port, or -1. */
  function LastMapping(ports: seq<PortMapping>, n: nat, port: nat): (i: int)
    requires n <= |ports|
    ensures -1 <= i < n
    ensures forall j :: i < j < n ==> ports[j].hostPort != port
    ensures i >= 0 ==> ports[i].hostPort == port
  {
    if n == 0 then -1
    else if ports[n - 1].hostPort == port then n - 1
    else LastMapping(ports, n - 1, port)
  }

  lemma {:induction false} ForwardedTo(chain: seq<Rule>, ip: string, ports: seq<PortMapping>, n: nat, packet: Packet,
                                       others: Others)
    requires n <= |ports|
    ensures var i := LastMapping(ports, n, packet.port);
      Route(InsertAll(chain, ForwardRules(ip, ports[..n])), packet, others)
      == if i < 0 then Route(chain, packet, others) else Some(Target(ip, ports[i].containerPort))
  {
    if n > 0 {
      ForwardedTo(chain, ip, ports, n - 1, packet, others);
      InsertNextPort(chain, ip, ports, n - 1);
      RouteCons(ForwardRule(ip, ports[n - 1]), InsertAll(chain, ForwardRules(ip, ports[..n - 1])), packet, others);
    }
  }

  /** After setup and cleanup of one mapping OUTPUT still forwards its port, unless its host address ends in
      an empty mask; then every packet goes where it went before. */
  lemma TrafficAfterCleanup(chain: seq<Rule>, ip: string, port: PortMapping, packet: Packet, others: Others)
    ensures var after := OutputAfter(chain, ip, [port]);
      && (ReadDest(port.hostIp) == AnyAddress ==> Route(after, packet, others) == Route(chain, packet, others))
      && (ReadDest(port.hostIp) != AnyAddress && packet.port == port.hostPort ==>
            Route(after, packet, others) == Some(Target(ip, port.containerPort)))
  {
    AfterOnePort(chain, ip, port);
    var rule := ForwardRule(ip, port);
    assert ([rule] + chain)[1..] == chain;
    if MatchesAnyAddress(port) {
      OutputRestoredExactly(chain, ip, [port]);
    } else {
      RouteCons(rule, chain, packet, others);
      if OutputDeleteRule(ip, port).Some? {
        RouteCons(rule, DeleteFirst(chain, OutputDeleteRule(ip, port).value), packet, others);
      }
    }
  }

  // ---------- Many containers ----------

  datatype Forwarded = Forwarded(ip: string, ports: seq<PortMapping>)

  /** A completed setup, or a completed cleanup of the `index`-th container that is set up. */
  datatype Event = SetUp(container: Forwarded) | CleanUp(index: nat)

  function Without<T>(s: seq<T>, i: nat): seq<T>
    requires i < |s|
  {
    s[..i] + s[i + 1..]
  }

  /** The containers set up and not cleaned up, if every cleanup named one of them. */
  function Active(events: seq<Event>): Option<seq<Forwarded>> {
    if events == [] then Some([])
    else
      match Active(events[..|events| - 1])
      case None => None
      case Some(active) =>
        match events[|events| - 1]
        case SetUp(c) => Some(active + [c])
        case CleanUp(i) => if i < |active| then Some(Without(active, i)) else None
  }

  /** PREROUTING after the events. */
  function Chain(base: seq<Rule>, events: seq<Event>): seq<Rule>
    requires Active(events).Some?
  {
    if events == [] then base
    else
      var earlier := events[..|events| - 1];
      match events[|events| - 1]
      case SetUp(c) => InsertAll(Chain(base, earlier), ForwardRules(c.ip, c.ports))
      case CleanUp(i) =>
        var c := Active(earlier).value[i];
        DeleteAll(Chain(base, earlier), ForwardRules(c.ip, c.ports))
  }

  function AllRules(active: seq<Forwarded>): seq<Rule> {
    if active == [] then [] else ForwardRules(active[0].ip, active[0].ports) + AllRules(active[1..])
  }

  lemma {:induction false} AllRulesAppends(a: seq<Forwarded>, b: seq<Forwarded>)
    ensures AllRules(a + b) == AllRules(a) + AllRules(b)
  {
    if a == [] {
      assert a + b == b;
    } else {
      assert (a + b)[1..] == a[1..] + b;
      AllRulesAppends(a[1..], b);
    }
  }

  lemma AllRulesOne(c: Forwarded)
    ensures AllRules([c]) == ForwardRules(c.ip, c.ports)
  {
    assert [c][1..] == [];
  }

  lemma {:induction false} AllRulesWithout(active: seq<Forwarded>, i: nat)
    requires i < |active|
    ensures multiset(AllRules(active))
         == multiset(AllRules(Without(active, i))) + multiset(ForwardRules(active[i].ip, active[i].ports))
  {
    var front, c, back := active[..i], active[i], active[i + 1..];
    assert active == front + ([c] + back);
    AllRulesAppends(front, [c] + back);
    AllRulesAppends([c], back);
    AllRulesOne(c);
    AllRulesAppends(front, back);
    MiddleOut(AllRules(front), ForwardRules(c.ip, c.ports), AllRules(back));
  }

  lemma MiddleOut<T>(a: seq<T>, b: seq<T>, c: seq<T>)
    ensures multiset(a + (b + c)) == multiset(a + c) + multiset(b)
  {
  }

  /** Under any interleaving of setups and cleanups, PREROUTING holds its base rules and, once each,
      the rules of the containers now set up. */
  lemma {:induction false} ChainIsBaseAndActive(base: seq<Rule>, events: seq<Event>)
    requires Active(events).Some?
    ensures multiset(Chain(base, events)) == multiset(base) + multiset(AllRules(Active(events).value))
    decreases |events|
  {
    if events != [] {
      var earlier := events[..|events| - 1];
      var active := Active(earlier).value;
      ChainIsBaseAndActive(base, earlier);
      match events[|events| - 1] {
        case SetUp(c) =>
          InsertAllCounts(Chain(base, earlier), ForwardRules(c.ip, c.ports));
          AllRulesAppends(active, [c]);
          AllRulesOne(c);
        case CleanUp(i) =>
          DeleteAllCounts(Chain(base, earlier), ForwardRules(active[i].ip, active[i].ports));
          AllRulesWithout(active, i);
      }
    }
  }

  // ---------- The OUTPUT chain ----------

  /** OUTPUT after a setup whose inserts all work and the cleanup that follows it. */
  function OutputAfter(chain: seq<Rule>, ip: string, ports: seq<PortMapping>): seq<Rule> {
    DeleteAll(InsertAll(chain, OutputInserted(ip, ports, {})), OutputDeleteRules(ip, ports))
  }

  predicate MatchesAnyAddress(port: PortMapping) {
    ReadDest(port.hostIp).AnyAddress?
  }

  /** Whatever OUTPUT holds before, setup and cleanup restore it if and only if every mapping's host
      address ends in an empty mask. */
  lemma {:induction false} OutputRestoredExactly(chain: seq<Rule>, ip: string, ports: seq<PortMapping>)
    ensures OutputAfter(chain, ip, ports) == chain <==> forall p :: p in ports ==> MatchesAnyAddress(p)
  {
    if forall p :: p in ports ==> MatchesAnyAddress(p) {
      AllInserted(ip, ports);
      SameRules(ip, ports);
      InsertThenDelete(chain, ForwardRules(ip, ports));
    } else {
      var i :| 0 <= i < |ports| && !MatchesAnyAddress(ports[i]);
      LeftBehindPositive(ip, ports, i);
      RulesLeftBehind(chain, ip, ports, ForwardRule(ip, ports[i]));
    }
  }

  lemma {:induction false} SameRules(ip: string, ports: seq<PortMapping>)
    requires forall p :: p in ports ==> MatchesAnyAddress(p)
    ensures OutputDeleteRules(ip, ports) == ForwardRules(ip, ports)
    decreases |ports|
  {
    if ports != [] {
      LastPort(ip, ports);
      SameRules(ip, ports[..|ports| - 1]);
      assert MatchesAnyAddress(ports[|ports| - 1]);
    }
  }

  lemma LastPort(ip: string, ports: seq<PortMapping>)
    requires ports != []
    ensures var i := |ports| - 1;
      ForwardRules(ip, ports) == ForwardRules(ip, ports[..i]) + [ForwardRule(ip, ports[i])]
  {
    RulesOfNextPort(ip, ports, {}, |ports| - 1);
    assert ports[..|ports|] == ports;
  }

  /** Whatever the chain held, every rule inserted for a mapping with another host address stays behind. */
  lemma RulesLeftBehind(chain: seq<Rule>, ip: string, ports: seq<PortMapping>, rule: Rule)
    requires rule.Dnat? && rule.dest.AnyAddress?
    ensures multiset(OutputAfter(chain, ip, ports))[rule] == multiset(chain)[rule] + LeftBehind(ip, ports, rule)
  {
    InsertedAndDeleted(ip, ports, rule);
    CountsAfter(chain, ip, ports);
  }

  /** A rule of somebody else that names the mapping's host address loses a copy to the cleanup. */
  lemma ForeignRuleDeleted(chain: seq<Rule>, ip: string, ports: seq<PortMapping>, i: nat)
    requires i < |ports| && ReadDest(ports[i].hostIp).Within?
    requires Dnat(ReadDest(ports[i].hostIp), ports[i].hostPort, ip, ports[i].containerPort) in chain
    ensures var rule := Dnat(ReadDest(ports[i].hostIp), ports[i].hostPort, ip, ports[i].containerPort);
      multiset(OutputAfter(chain, ip, ports))[rule] < multiset(chain)[rule]
  {
    var rule := Dnat(ReadDest(ports[i].hostIp), ports[i].hostPort, ip, ports[i].containerPort);
    DeletesRule(ip, ports, i);
    assert rule !in ForwardRules(ip, ports);
    CountsAfter(chain, ip, ports);
  }

  lemma CountsAfter(chain: seq<Rule>, ip: string, ports: seq<PortMapping>)
    ensures multiset(OutputAfter(chain, ip, ports))
         == multiset(chain) + multiset(ForwardRules(ip, ports)) - multiset(OutputDeleteRules(ip, ports))
  {
    AllInserted(ip, ports);
    InsertAllCounts(chain, ForwardRules(ip, ports));
    DeleteAllCounts(InsertAll(chain, ForwardRules(ip, ports)), OutputDeleteRules(ip, ports));
  }

  lemma {:induction false} DeletesRule(ip: string, ports: seq<PortMapping>, i: nat)
    requires i < |ports| && OutputDeleteRule(ip, ports[i]).Some?
    ensures OutputDeleteRule(ip, ports[i]).value in OutputDeleteRules(ip, ports)
    decreases |ports|
  {
    if i < |ports| - 1 {
      DeletesRule(ip, ports[..|ports| - 1], i);
    }
  }

  /** How many mappings insert the rule and do not delete it again. */
  function LeftBehind(ip: string, ports: seq<PortMapping>, rule: Rule): nat {
    if ports == [] then 0
    else
      var last := ports[|ports| - 1];
      LeftBehind(ip, ports[..|ports| - 1], rule)
      + if ForwardRule(ip, last) == rule && !MatchesAnyAddress(last) then 1 else 0
  }

  lemma {:induction false} LeftBehindPositive(ip: string, ports: seq<PortMapping>, i: nat)
    requires i < |ports| && !MatchesAnyAddress(ports[i])
    ensures LeftBehind(ip, ports, ForwardRule(ip, ports[i])) > 0
    decreases |ports|
  {
    if i < |ports| - 1 {
      LeftBehindPositive(ip, ports[..|ports| - 1], i);
    }
  }

  lemma {:induction false} InsertedAndDeleted(ip: string, ports: seq<PortMapping>, rule: Rule)
    requires rule.Dnat? && rule.dest.AnyAddress?
    ensures multiset(ForwardRules(ip, ports))[rule]
         == multiset(OutputDeleteRules(ip, ports))[rule] + LeftBehind(ip, ports, rule)
    decreases |ports|
  {
    if ports != [] {
      InsertedAndDeleted(ip, ports[..|ports| - 1], rule);
      LastPortCounts(ip, ports, rule);
    }
  }

  lemma LastPortCounts(ip: string, ports: seq<PortMapping>, rule: Rule)
    requires ports != [] && rule.Dnat? && rule.dest.AnyAddress?
    ensures var front, last := ports[..|ports| - 1], ports[|ports| - 1];
      var once := if ForwardRule(ip, last) == rule then 1 else 0;
      && multiset(ForwardRules(ip, ports))[rule] == multiset(ForwardRules(ip, front))[rule] + once
      && multiset(OutputDeleteRules(ip, ports))[rule]
         == multiset(OutputDeleteRules(ip, front))[rule] + if MatchesAnyAddress(last) then once else 0
  {
    LastPort(ip, ports);
  }

  lemma AfterOnePort(chain: seq<Rule>, ip: string, port: PortMapping)
    ensures var rule := OutputDeleteRule(ip, port);
      OutputAfter(chain, ip, [port])
      == if rule.None? then [ForwardRule(ip, port)] + chain
         else DeleteFirst([ForwardRule(ip, port)] + chain, rule.value)
  {
    var rule := ForwardRule(ip, port);
    assert [port][..0] == [] && OutputInserted(ip, [port], {}) == [] + [rule];
    InsertOneMore(chain, [], rule);
    DeleteMaybeMore([rule] + chain, [], OutputDeleteRule(ip, port));
    assert [] + [rule] == [rule] && OutputDeleteRules(ip, [port]) == [] + ToSeq(OutputDeleteRule(ip, port));
  }

  /** One mapping with the default address: the inserted rule stays, and a rule that forwards the same port
      of 0.0.0.0 goes instead. */
  lemma DefaultAddress(chain: seq<Rule>, ip: string, port: PortMapping)
    requires port.hostIp == "0.0.0.0"
    ensures OutputAfter(chain, ip, [port])
      == var foreign := Dnat(Within([0, 0, 0, 0], [255, 255, 255, 255]), port.hostPort, ip, port.containerPort);
         [Dnat(AnyAddress, port.hostPort, ip, port.containerPort)] + DeleteFirst(chain, foreign)
  {
    DestExamples();
    AfterOnePort(chain, ip, port);
    assert ([ForwardRule(ip, port)] + chain)[1..] == chain;
  }

  /** With an empty mask, as a number or as a quad, the chain comes back. */
  lemma EmptyMask(chain: seq<Rule>, ip: string, port: PortMapping)
    requires port.hostIp == "0.0.0.0/0" || port.hostIp == "0.0.0.0/0.0.0.0"
    ensures OutputAfter(chain, ip, [port]) == chain
  {
    DestExamples();
    OutputRestoredExactly(chain, ip, [port]);
  }

  // ---------- Flushing ----------

  /** A listed rule that the flush deletes; it is meant to find those to the default bridge. */
  predicate Flushed(line: string) {
    Contains(line, "DNAT") && Contains(line, "10.0.42.")
  }

  function FirstFlushed(lines: seq<string>): (i: nat)
    ensures i <= |lines| && (i < |lines| ==> Flushed(lines[i]))
    ensures forall k :: 0 <= k < i ==> !Flushed(lines[k])
  {
    if lines == [] || Flushed(lines[0]) then 0 else 1 + FirstFlushed(lines[1..])
  }

  function Unflushed(lines: seq<string>): seq<string> {
    if lines == [] then []
    else if Flushed(lines[0]) then Unflushed(lines[1..])
    else [lines[0]] + Unflushed(lines[1..])
  }

  function FlushedCount(lines: seq<string>): nat {
    if lines == [] then 0 else (if Flushed(lines[0]) then 1 else 0) + FlushedCount(lines[1..])
  }

  lemma {:induction false} DeleteLast<T>(front: seq<T>, r: T)
    requires r !in front
    ensures DeleteFirst(front + [r], r) == front
  {
    if front == [] {
      assert front + [r] == [r];
    } else {
      assert (front + [r])[1..] == front[1..] + [r];
      DeleteLast(front[1..], r);
    }
  }

  lemma {:induction false} FlushAppends(a: seq<string>, b: seq<string>)
    ensures Unflushed(a + b) == Unflushed(a) + Unflushed(b)
    ensures FlushedCount(a + b) == FlushedCount(a) + FlushedCount(b)
  {
    if a == [] {
      assert a + b == b;
    } else {
      assert (a + b)[1..] == a[1..] + b;
      FlushAppends(a[1..], b);
    }
  }

  /** Deleting the first flushed line by its text removes that very line and keeps the others. */
  lemma DeleteFlushed(front: seq<string>, line: string, back: seq<string>)
    requires Flushed(line) && forall k :: 0 <= k < |front| ==> !Flushed(front[k])
    ensures var lines := front + [line] + back;
      && DeleteFirst(lines, line) == front + back
      && Unflushed(front + back) == Unflushed(lines)
      && FlushedCount(front + back) < FlushedCount(lines)
  {
    assert line !in front;
    assert line in front + [line];
    DeleteLast(front, line);
    DeleteFromFront(front + [line], back, line);
    FlushAppends(front + [line], back);
    FlushAppends(front, [line]);
    FlushAppends(front, back);
    FlushedAlone(line);
  }

  lemma {:induction false} DeleteFirstFlushed(lines: seq<string>, i: nat)
    requires i < |lines| && Flushed(lines[i]) && forall k :: 0 <= k < i ==> !Flushed(lines[k])
    ensures DeleteFirst(lines, lines[i]) == Without(lines, i) == DropFlushed(lines, 1)
  {
    DeleteFlushed(lines[..i], lines[i], lines[i + 1..]);
    SplitAt(lines, i);
    DropFirst(lines, i);
  }

  lemma SplitAt<T>(s: seq<T>, i: nat)
    requires i < |s|
    ensures s == s[..i] + [s[i]] + s[i + 1..]
  {
  }

  lemma FlushedAlone(line: string)
    requires Flushed(line)
    ensures Unflushed([line]) == [] && FlushedCount([line]) == 1
  {
    assert [line][1..] == [];
  }

  lemma {:induction false} NothingFlushed(lines: seq<string>)
    ensures FirstFlushed(lines) == |lines| <==> FlushedCount(lines) == 0
  {
    if lines != [] {
      NothingFlushed(lines[1..]);
    }
  }

  /** The lines without the first `n` that the flush matches. */
  function DropFlushed(lines: seq<string>, n: nat): seq<string> {
    if lines == [] then []
    else if n > 0 && Flushed(lines[0]) then DropFlushed(lines[1..], n - 1)
    else [lines[0]] + DropFlushed(lines[1..], n)
  }

  lemma {:induction false} DropNone(lines: seq<string>)
    ensures DropFlushed(lines, 0) == lines
  {
    if lines != [] {
      DropNone(lines[1..]);
    }
  }

  lemma {:induction false} DropFirst(lines: seq<string>, i: nat)
    requires i < |lines| && Flushed(lines[i]) && forall k :: 0 <= k < i ==> !Flushed(lines[k])
    ensures DropFlushed(lines, 1) == Without(lines, i)
  {
    if i == 0 {
      DropNone(lines[1..]);
    } else {
      assert !Flushed(lines[0]);
      DropFirst(lines[1..], i - 1);
    }
  }

  lemma {:induction false} DropMore(lines: seq<string>, n: nat)
    ensures DropFlushed(DropFlushed(lines, n), 1) == DropFlushed(lines, n + 1)
  {
    if lines != [] {
      if n == 0 {
        DropNone(lines);
      } else {
        DropMore(lines[1..], if Flushed(lines[0]) then n - 1 else n);
      }
    }
  }

  /** Only matching lines go; once all of them may go, none is left. */
  lemma {:induction false} DropKeeps(lines: seq<string>, n: nat)
    ensures Unflushed(DropFlushed(lines, n)) == Unflushed(lines)
    ensures FlushedCount(DropFlushed(lines, n)) == if n < FlushedCount(lines) then FlushedCount(lines) - n else 0
    ensures n >= FlushedCount(lines) ==> DropFlushed(lines, n) == Unflushed(lines)
  {
    if lines != [] {
      DropKeeps(lines[1..], if n > 0 && Flushed(lines[0]) then n - 1 else n);
    }
  }

  /** One round of the flush: the chain is listed, and the first line found is deleted. */
  datatype Round = ListFails | DeleteFails | DeleteWorks

  datatype FlushEnd = Finished | GaveUp | StillRunning

  /** The rounds before the first listing that fails. */
  function Listed(rounds: seq<Round>): (n: nat)
    ensures n <= |rounds|
    ensures forall k :: 0 <= k < n ==> !rounds[k].ListFails?
    ensures n < |rounds| ==> rounds[n].ListFails?
  {
    if rounds == [] || rounds[0].ListFails? then 0 else 1 + Listed(rounds[1..])
  }

  /** How many of the first `n` rounds have a delete that works. */
  function Works(rounds: seq<Round>, n: nat): nat
    requires n <= |rounds|
  {
    if n == 0 then 0 else Works(rounds, n - 1) + if rounds[n - 1].DeleteWorks? then 1 else 0
  }

  lemma {:induction false} WorksGrows(rounds: seq<Round>, i: nat, j: nat)
    requires i <= j <= |rounds|
    ensures Works(rounds, i) <= Works(rounds, j)
    decreases j - i
  {
    if i < j {
      WorksGrows(rounds, i, j - 1);
    }
  }

  /** A listing shows no matching line exactly if all of them were dropped. */
  lemma ListingAfter(was: seq<string>, n: nat)
    ensures var now := DropFlushed(was, n);
      && (FirstFlushed(now) == |now| <==> n >= FlushedCount(was))
      && (FirstFlushed(now) == |now| ==> now == Unflushed(was))
  {
    DropKeeps(was, n);
    NothingFlushed(DropFlushed(was, n));
  }

  /** Deleting the line found, by its text, drops one more. */
  lemma DeleteAfter(was: seq<string>, n: nat)
    ensures var now := DropFlushed(was, n);
      var k := FirstFlushed(now);
      k < |now| ==> DeleteFirst(now, now[k]) == DropFlushed(was, n + 1)
  {
    var now := DropFlushed(was, n);
    if FirstFlushed(now) < |now| {
      DeleteFirstFlushed(now, FirstFlushed(now));
      DropMore(was, n);
    }
  }

  lemma AllDropped(was: seq<string>, m: nat, n: nat)
    requires FlushedCount(was) <= m <= n
    ensures DropFlushed(was, m) == DropFlushed(was, n)
  {
    DropKeeps(was, m);
    DropKeeps(was, n);
  }

  /** Round `i` finds nothing if enough deletes worked before; otherwise one that works drops one more. */
  lemma FlushRound(was: seq<string>, rounds: seq<Round>, i: nat, now: seq<string>, k: nat)
    requires i < Listed(rounds) && now == DropFlushed(was, Works(rounds, i)) && k == FirstFlushed(now)
    ensures k == |now| ==> Works(rounds, Listed(rounds) - 1) >= FlushedCount(was)
    ensures k == |now| ==> now == DropFlushed(was, Works(rounds, Listed(rounds))) == Unflushed(was)
    ensures k < |now| ==> Works(rounds, i) < FlushedCount(was)
    ensures k < |now| ==>
      DropFlushed(was, Works(rounds, i + 1)) == if rounds[i].DeleteWorks? then DeleteFirst(now, now[k]) else now
  {
    ListingAfter(was, Works(rounds, i));
    if k == |now| {
      WorksGrows(rounds, i, Listed(rounds) - 1);
      AllDropped(was, Works(rounds, i), Works(rounds, Listed(rounds)));
    } else {
      DeleteAfter(was, Works(rounds, i));
    }
  }

  /** The flush of one chain, given as its listed rules. */
  class ListedChain {
    var lines: seq<string>

    /** The loop stops at a listing that fails or shows no matching line, and goes on for ever if it never
        comes to either; the rounds given here may be fewer than it needs. */
    method Flush(rounds: seq<Round>) returns (end: FlushEnd)
      modifies this
      ensures lines == DropFlushed(old(lines), Works(rounds, Listed(rounds)))
      ensures Unflushed(lines) == Unflushed(old(lines))
      ensures end.Finished? ==> lines == Unflushed(old(lines))
      ensures end.Finished? <==>
        Listed(rounds) > 0 && Works(rounds, Listed(rounds) - 1) >= FlushedCount(old(lines))
      ensures end.StillRunning? ==> Listed(rounds) == |rounds|
      ensures end.GaveUp? ==> Listed(rounds) < |rounds|
    {
      DropNone(lines);
      DropKeeps(lines, Works(rounds, Listed(rounds)));
      for i := 0 to |rounds|
        invariant i <= Listed(rounds)
        invariant lines == DropFlushed(old(lines), Works(rounds, i))
        invariant i > 0 ==> Works(rounds, i - 1) < FlushedCount(old(lines))
      {
        if rounds[i].ListFails? {
          return GaveUp;
        }
        var k := FirstFlushed(lines);
        FlushRound(old(lines), rounds, i, lines, k);
        if k == |lines| {
          return Finished;
        }
        if rounds[i].DeleteWorks? {
          lines := DeleteFirst(lines, lines[k]);
        }
      }
      return StillRunning;
    }
  }

  // ---------- What the flush leaves and takes ----------

  /** A listed rule, in either chain, that forwards to the address. */
  ghost predicate ForwardsTo(line: string, a: Address) {
    exists chain, dport, toPort :: NatChain(chain) && line == DnatLine(chain, dport, AddressText(a), toPort)
  }

  /** Corten's own rules: the default bridge is 10.0.42.0/24, the named networks are 10.0.43.0/24 and up. */
  ghost predicate CortenLine(line: string) {
    exists a: Address :: 42 <= a.third <= 254 && ForwardsTo(line, a)
  }

  ghost predicate NamedNetworkLine(line: string) {
    exists a: Address :: 43 <= a.third <= 254 && ForwardsTo(line, a)
  }

  lemma FlushedExactly(line: string, a: Address)
    requires ForwardsTo(line, a)
    ensures Flushed(line) <==> a.third == 42
  {
    var chain, dport, toPort :| NatChain(chain) && line == DnatLine(chain, dport, AddressText(a), toPort);
    DnatLineSaysDnat(chain, dport, AddressText(a), toPort);
    ContainsBridge(chain, dport, a, toPort);
  }

  lemma {:induction false} UnflushedHolds(lines: seq<string>, line: string)
    ensures line in Unflushed(lines) <==> line in lines && !Flushed(line)
  {
    if lines != [] {
      UnflushedHolds(lines[1..], line);
      assert lines == [lines[0]] + lines[1..];
    }
  }

  /** A line without DNAT, wherever it points, is none that the flush takes. */
  lemma NoDnatKept(lines: seq<string>, line: string)
    requires line in lines && 'D' !in line
    ensures line in Unflushed(lines)
  {
    UnflushedHolds(lines, line);
    ContainsHead(line, "DNAT");
  }

  /** A flush leaves none of Corten's rules if and only if none of them serves a named network. */
  lemma FlushLeavesNamed(lines: seq<string>)
    ensures (forall l :: l in Unflushed(lines) ==> !CortenLine(l))
       <==> (forall l :: l in lines ==> !NamedNetworkLine(l))
  {
    forall l | l in lines
      ensures l in Unflushed(lines) && CortenLine(l) <==> NamedNetworkLine(l)
    {
      UnflushedHolds(lines, l);
      NamedIsUnflushedCorten(l);
    }
    forall l | l in Unflushed(lines)
      ensures l in lines
    {
      UnflushedHolds(lines, l);
    }
  }

  lemma NamedIsUnflushedCorten(line: string)
    ensures NamedNetworkLine(line) <==> CortenLine(line) && !Flushed(line)
  {
    if NamedNetworkLine(line) {
      var a: Address :| 43 <= a.third <= 254 && ForwardsTo(line, a);
      FlushedExactly(line, a);
    }
    if CortenLine(line) {
      var a: Address :| 42 <= a.third <= 254 && ForwardsTo(line, a);
      FlushedExactly(line, a);
    }
  }

  /** A rule to 110.0.42.x is flushed although it is not Corten's. */
  lemma ForeignLineFlushed(chain: string, dport: nat, last: nat, toPort: nat)
    requires NatChain(chain)
    ensures var line := DnatLine(chain, dport, "110.0.42." + Show(last), toPort);
      Flushed(line) && !CortenLine(line)
  {
    var toIp, start, more := "110.0.42." + Show(last), LineStart(chain, dport), "0.42." + Show(last);
    var line, tail := DnatLine(chain, dport, toIp, toPort), ":" + Show(toPort);
    DnatLineSaysDnat(chain, dport, toIp, toPort);
    ForeignText(Show(last));
    BridgeText(start, "1", Show(last), tail);
    LineStartHasNoDot(chain, dport);
    FirstDotAt(start, "110", more, tail);
    CortenFirstDot(line);
  }

  lemma ForeignText(last: string)
    ensures "110.0.42." + last == "1" + "10.0.42." + last == "110" + ("." + ("0.42." + last))
  {
  }

  lemma BridgeText(start: string, a: string, b: string, tail: string)
    ensures Contains(start + (a + "10.0.42." + b) + tail, "10.0.42.")
  {
    assert start + (a + "10.0.42." + b) + tail == (start + a) + "10.0.42." + (b + tail);
    ContainsMiddle(start + a, "10.0.42.", b + tail);
  }

  function FirstDot(s: string): (n: nat)
    ensures n <= |s|
  {
    if s == "" || s[0] == '.' then 0 else 1 + FirstDot(s[1..])
  }

  lemma {:induction false} FirstDotAfter(s: string, rest: string)
    requires '.' !in s && rest != "" && rest[0] == '.'
    ensures FirstDot(s + rest) == |s|
  {
    if s != "" {
      assert (s + rest)[1..] == s[1..] + rest;
      FirstDotAfter(s[1..], rest);
    } else {
      assert s + rest == rest;
    }
  }

  lemma FirstDotAt(start: string, octet: string, more: string, tail: string)
    requires '.' !in start && '.' !in octet
    ensures var line := start + (octet + ("." + more)) + tail;
      && FirstDot(line) == |start| + |octet| < |line|
      && forall k :: 0 <= k < |start| + |octet| ==> line[k] == (start + octet)[k]
  {
    assert start + (octet + ("." + more)) + tail == (start + octet) + (("." + more) + tail);
    FirstDotAfter(start + octet, ("." + more) + tail);
  }

  /** In a line of Corten's the two characters before the first dot stand alone. */
  lemma CortenFirstDot(line: string)
    ensures CortenLine(line) ==> FirstDot(line) >= 3 && line[FirstDot(line) - 3] == ' '
  {
    if CortenLine(line) {
      var a: Address :| 42 <= a.third <= 254 && ForwardsTo(line, a);
      var chain, dport, toPort :| NatChain(chain) && line == DnatLine(chain, dport, AddressText(a), toPort);
      var start, more := LineStart(chain, dport), "0." + Show(a.third as nat) + "." + Show(a.last as nat);
      LineStartHasNoDot(chain, dport);
      AddressStart(a);
      FirstDotAt(start, "10", more, ":" + Show(toPort));
    }
  }

  lemma AddressStart(a: Address)
    ensures AddressText(a) == "10" + ("." + ("0." + Show(a.third as nat) + "." + Show(a.last as nat)))
  {
  }

  method FlushPortForwarding(prerouting: ListedChain, output: ListedChain, rounds: seq<Round>, more: seq<Round>)
    returns (first: FlushEnd, second: FlushEnd)
    modifies prerouting, output
    ensures Unflushed(prerouting.lines) == Unflushed(old(prerouting.lines))
    ensures Unflushed(output.lines) == Unflushed(old(output.lines))
    ensures first.Finished? && second.Finished? ==>
      var listed := old(prerouting.lines + output.lines);
      && prerouting.lines + output.lines == Unflushed(listed)
      && ((forall l :: l in Unflushed(listed) ==> !CortenLine(l))
          <==> (forall l :: l in listed ==> !NamedNetworkLine(l)))
  {
    first := prerouting.Flush(rounds);
    second := output.Flush(more);
    FlushAppends(old(prerouting.lines), old(output.lines));
    FlushLeavesNamed(old(prerouting.lines + output.lines));
  }
}
