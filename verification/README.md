# Corten: a model of its decision logic, with proofs

Corten is a container runtime. Most of it drives the kernel, `ip` and `iptables`; this project models
the parts that decide something on their own and proves what they guarantee, for all inputs, all runs
and all interleavings.

| module | models |
|---|---|
| `Compose`, `Forge` | the start-order resolver of `corten forge` and the `up`/`down` loops built on it |
| `Jsonc`, `JsoncStrip` | the comment stripper for JSON with comments: a token grammar, its unique reading, and the loop |
| `Restart` | restart policies, exit codes and the monitor's run loop |
| `Lifecycle` | monitor, children and concurrent `stop` commands as one protocol with a start barrier |
| `Shell` | the `/bin/sh -c` command line of chroot builds, read back by the POSIX token rules |
| `Seccomp`, `Capabilities` | the BPF filter generator with a BPF machine; the capability mask and bounding set |
| `Network`, `NetworkStore` | address and subnet allocation over counter files |
| `Hosts` | the text of the hosts files, read back as a resolver does |
| `Firewall` | the nat chains edited by port forwarding, and the flush |
| `Iptables` | how iptables reads the address after `-d`, and how it lists the rules |
| `Decimal`, `Volume` | number and memory-size parsing; sized volumes and their resize steps |

Code that updates state is a class or a method with loops, proved against specification functions;
the laws of those functions are lemmas. Outcomes of commands, file writes and system calls are parameters.

## What the proofs found

Facts about the code that its comments and documentation do not say, or say differently. The model
follows the code.

- `stopped` is final in `state.json` under any number of concurrent `stop` commands if and only if the
  restart policy is `no` (`Lifecycle.StoppedIsFinalExactly`).
- A `stop` that loaded the state before the monitor's final save erases the exit code
  (`Lifecycle.ExitCodeKeptExactly`).
- A child whose parent fails before the signal blocks for ever: it holds a copy of the pipe's write end
  (`Lifecycle.AbandonedChildNeverStarts`). The same copy is what makes the barrier safe: without it the child
  would start with nothing set up (`Lifecycle.CopyHoldsBarrier`).
- An error of the monitor between the signal and the save of `running` leaves a container that runs on, while
  its file says `created` and names no pid, so that no `stop` reaches it (`Lifecycle.ErrorAfterSignal`).
- A failing `waitpid` counts as exit code 0 (`Lifecycle.FailedWaitEndsWithZero`).
- The filter generator denies exactly the last 255 entries of its list (`Seccomp.FilterDecides`), and its
  output loads up to 4093 entries. The shipped list has 15.
- The build quoting misses tabs, newlines, shell operators, `` ` ``, `?`, `[`, a leading `#` or `~`, and the
  empty argument, and a NUL character makes the builder panic; the round trip holds for every other argument
  list and no other (`Shell.ShellCommandRoundTrip`).
- Setup and cleanup of port forwarding restore OUTPUT if and only if every mapping's host address ends in
  an empty mask, such as `/0` or `/0.0.0.0`: the delete carries a `-d` that the insert lacks
  (`Firewall.OutputRestoredExactly`). With the default `0.0.0.0` the inserted rule stays
  (`Firewall.DefaultAddress`) and still takes the port's traffic (`Firewall.TrafficAfterCleanup`), and a rule
  that is not Corten's but names the host address goes
  (`Firewall.ForeignRuleDeleted`).
- The flush matches `10.0.42.` only, while its comment says all Corten rules. It leaves exactly the rules of
  named networks (`Firewall.FlushLeavesNamed`), takes rules to `110.0.42.x` that are not Corten's
  (`Firewall.ForeignLineFlushed`), and never ends if its deletes fail (`Firewall.ListedChain.Flush`).
- A hosts file resolves names as the map does if and only if no container name is empty or holds a blank,
  a newline or `#`; nothing checks names for these (`Hosts.LookupAgreesExactly`).
- A network's removal deletes its bridge, ignoring failure, and then its directory. If that fails with the
  counter gone and the metadata left, further containers get addresses a second time if and only if the bridge
  is still there (`Network.LostCounterRepeats`, with a run in `NetworkStore.FirstAddressAgain`); without it
  they get none.
- A bridge is named `corten-` and up to ten bytes of the network's name, while Linux takes 15 bytes: names over
  eight bytes get no bridge, and the directory made before blocks the name (`Network.BridgeNames`,
  `NetworkStore.Store.CreateNetwork`). The project network of forge, `<project>_default`, is one of them, and
  its error is ignored.
- `on-failure:N` with an `N` above 32 bits means no limit (`Restart.OnFailureReadBack`).
- A resize cuts a filesystem if the image's length cannot be read, since it then counts as 0
  (`Volume.SizedVolume.Resize`, `Volume.CutExample`). The existence check just before makes the same system
  call, so this takes a call that works, then one that fails, then a file that opens for writing.
- `forge down` skips a service whose container it does not find; the services left stay closed under their
  dependencies if and only if none of those skipped depends on one that was stopped (`Forge.Project.Down`).
- A comment in `create_network` says the subnet comes from counting networks; the code uses a counter
  that never goes back, which is why recreated networks get fresh addresses.

## Model

| member | source | states |
|---|---|---|
| `Compose.ResolveOrder` | src/compose.rs:139-149 | for every key order, succeeds exactly when all dependencies are known and the graph has no cycle; the result lists every service once, after its dependencies; each error comes with its cycle or missing service |
| `Compose.Resolver.TopoSort` | src/compose.rs:151-182 | on success `visiting` is restored, `order` only grows, ends in the service, and gains only services it reaches; errors are witnessed; terminates by the services not on the search path |
| `Compose.Resolver.VisitDeps` | src/compose.rs:167-176 | after the loop every dependency is finished and the search path is unchanged |
| `Compose.Resolver.Finish` | src/compose.rs:178-180 | the closing updates keep the finished services in dependency order |
| `Compose.PathDescends` | src/compose.rs:137-138 | along any dependency path positions in a start order strictly fall |
| `Compose.StartOrderExcludesCycles` | src/compose.rs:137-149 | an order with dependencies first exists only for complete acyclic graphs |
| `Compose.StackClosesCycle` | src/compose.rs:161-163 | meeting a service already on the search path yields a real cycle through it |
| `Forge.UpThenDownClosed` | src/main.rs:1577-1694 | after every start of any prefix of up, and after every stop of any prefix of a down with its own order, every running service has its dependencies running, provided those whose container the down does not find are closed among themselves; a full down leaves exactly these |
| `Forge.Project.Up` | src/main.rs:1577-1667 | the exact set running after each start and at the first failing service, each closed under dependencies |
| `Forge.Project.Down` | src/main.rs:1676-1694 | the exact set still running after each stop, whichever containers are not found; all closed under dependencies if and only if the services left are |
| `Jsonc.LexIsReading` | src/lib.rs:46-91 | every text, unterminated strings and comments included, splits completely into well-formed tokens |
| `Jsonc.ReadingIsUnique` | src/lib.rs:46-91 | a well-formed token sequence is the only reading of the text it prints |
| `Jsonc.StripKeepsTokens` | src/lib.rs:63-90 | the only reading of the output is the non-comment tokens of the input, in order: nothing joins up where a comment was |
| `Jsonc.StripIsIdempotent` | src/lib.rs:40-94 | stripping twice is stripping once |
| `Jsonc.InsertThenStrip` | src/lib.rs:63-90 | comments inserted between tokens, not after a bare slash, line comments before a newline or the end, are removed and the text comes back |
| `Jsonc.StripConcat` | src/lib.rs:46-93 | stripping distributes over a split that no token crosses |
| `Jsonc.JsonStringKept` | src/lib.rs:53-67 | every string literal of RFC 8259 section 7 is kept verbatim |
| `JsoncStrip.StripJsoncComments` | src/lib.rs:40-94 | the loop returns the printed non-comment tokens, on all inputs |
| `JsoncStrip.SkipLine` | src/lib.rs:70-74 | stops at the newline, which is kept |
| `JsoncStrip.SkipBlock` | src/lib.rs:78-88 | stops after the first terminator, or at the end |
| `Restart.OnFailureReadBack` | src/container.rs:43-48 | a written limit is read back; one that overflows becomes no limit |
| `Restart.BadLimit` | src/container.rs:43-48 | a limit that is no number is no limit |
| `Restart.PolicyReadExactly` | src/container.rs:38-52 | exactly `always` is always; exactly the texts that begin with `on-failure` restart on failure, without a limit unless a colon follows; every other text never restarts |
| `Restart.ExitCode` | src/container.rs:443-449 | the code lies in 0..255 and is 0 only for a clean exit |
| `Restart.ExitCodeReadBack` | src/container.rs:443-449 | a child that exits with a code from 0 to 255 gives that code; one killed by a signal from 1 to 126, with a core dump or not, gives 128 plus the signal |
| `Restart.StoppedGivesOne` | src/container.rs:447-449 | any other status gives 1 |
| `Restart.LastRunExactly` | src/container.rs:462-473 | the last run is the first under `no`, none under `always`, and on failure the first with code zero or the one after the last allowed restart |
| `Restart.LimitedRuns` | src/container.rs:462-473 | with a limit, the last run is the first with code zero or the one after the last allowed restart |
| `Restart.LimitedRunsEnd` | src/container.rs:462-473 | with a limit, one of the first max+1 runs is the last |
| `Restart.RestartsBounded` | src/container.rs:462-473 | with a limit in 32 bits, the restarts before the last run are at most the limit, so their counter never wraps |
| `Restart.Monitor.RunLoop` | src/container.rs:196-482 | saved states are created, running once per run, stopped; the exit code, returned and saved last, is that of the last run's child or 128 plus its signal; the 32-bit counter is the number of restarts modulo its width, and under a limit the number itself, at most the limit |
| `Lifecycle.CloneFlags` | src/namespace.rs:370-384 | the flag word has exactly the pid, mount, UTS and IPC namespaces, SIGCHLD, and the network and user namespaces when configured; table and memory are not shared |
| `Lifecycle.ChildStartsSetUp` | src/container.rs:330-413 | in every interleaving and after every early error, a child past its barrier read has a cgroup exactly if not rootless, id maps exactly if rootless, and a network exactly if it is to have one |
| `Lifecycle.ChildStartsExactly` | src/container.rs:330-413 | in every interleaving a child that has not exited can come to start if and only if its parent wrote the byte, or has made it and not yet come to the signal |
| `Lifecycle.ReleasedChildPasses` | src/namespace.rs:105-120 | a child whose byte was written passes by its read alone; none passes otherwise |
| `Lifecycle.EarlyErrorAbandons` | src/container.rs:330-409 | an error at any step between clone and signal ends the monitor, and no continuation starts the child |
| `Lifecycle.CopyHoldsBarrier` | src/namespace.rs:105-120 | with a shared descriptor table the child would see the end of the pipe after such an error and start unprepared |
| `Lifecycle.ErrorAfterSignal` | src/container.rs:410-424 | a run in which the child runs on without a monitor and the file still says created, without a pid |
| `Lifecycle.FailedReadExitsOne` | src/namespace.rs:114-119 | a child whose barrier read fails never starts and exits with code 1 |
| `Lifecycle.BarrierHolds` | src/container.rs:330-419 | no action of parent, child or stop command breaks the barrier invariant, over whole runs |
| `Lifecycle.AbandonedChildNeverStarts` | src/namespace.rs:105-120 | a child whose parent failed before signalling never passes its read |
| `Lifecycle.SingleRunHolds` | src/container.rs:415-482 | under policy "no" the pid is published by one save only, and over whole runs a saved `stopped` is never taken back |
| `Lifecycle.StoppedIsFinalExactly` | src/container.rs:415-482 | for any number of stop commands, `stopped` stays saved if and only if the policy never restarts |
| `Lifecycle.FinishedIsStopped` | src/container.rs:478-505 | when the monitor is done the file says stopped, or is gone for an auto-removed container |
| `Lifecycle.LeftAloneEnds` | src/container.rs:330-482 | with nobody else, for any policy and any way the children end, the protocol runs to its final save, which has the pid and the code of the last child, or 128 plus its signal |
| `Lifecycle.SavedCodeIsLastChilds` | src/container.rs:430-482 | in every interleaving without a failing wait the final save records the code of the last child |
| `Lifecycle.FailedWaitEndsWithZero` | src/container.rs:437-449 | a failing wait counts as code 0 |
| `Lifecycle.ExitCodeKeptExactly` | src/container.rs:661-703 | the exit code survives every continuation if and only if no stop is between load and save at the final save |
| `Shell.ShellCommandRoundTrip` | src/build.rs:29-53 | the builder reaches the shell, and reading the command line back gives the command and its arguments, if and only if nothing holds a NUL and each argument either holds one of space, `'`, `"`, `$`, backslash and `*`, or is not empty, does not begin with `#` or `~`, and holds no tab, newline, operator character, backquote, `?` or `[` |
| `Shell.JoinKeepsNul` | src/build.rs:32-53 | the joined arguments hold a NUL exactly if one of them does |
| `Shell.QuotedRead` | src/build.rs:34 | quoting with `'\''` reads back as the argument |
| `Shell.JoinFirst` | src/build.rs:32-39 | the first token read never is an argument the builder does not support |
| `Seccomp.BuildFilter` | src/security.rs:296-347 | the program is, number by number, a load, one check per entry with the offset as stored in a byte, allow, deny |
| `Seccomp.ExecFromCheck` | src/security.rs:311-331 | from any check on, execution ends in bounds and denies exactly the effective entries still ahead |
| `Seccomp.FilterDecides` | src/security.rs:296-347 | denied if and only if listed among the last 255 entries, else allowed |
| `Seccomp.CorrectExactly` | src/security.rs:323-331 | the program means its list if and only if every entry also stands among the last 255; always so up to 255 |
| `Seccomp.FirstOf256Escapes` | src/security.rs:324 | with 256 entries the first, unless repeated, is allowed |
| `Seccomp.InstalledExactly` | src/security.rs:361-364 | the kernel's check accepts the whole program if and only if there are at most 4093 entries |
| `Seccomp.ApplySeccompFilter` | src/security.rs:255-347 | the shipped filter loads and denies exactly the fifteen listed calls, with EPERM |
| `Capabilities.BuildMask` | src/security.rs:99-102 | a bit is set exactly for each listed capability |
| `Capabilities.DropCapabilities` | src/security.rs:90-135 | the words grant exactly the list, the bounding-set loop drops exactly the rest up to the last capability |
| `Capabilities.DropToDefault` | src/security.rs:78-135 | exactly the thirteen listed capabilities are granted, and exactly the others up to 40 dropped |
| `Network.CounterReads` | src/network.rs:401-410 | a counter file written by the allocators is always readable and at least its start |
| `Network.UnreadableCounter` | src/network.rs:401-410 | any text that is no number from 0 to 255 is unreadable |
| `Network.HandOutDefault` | src/network.rs:396-428 | handing out the next default address keeps all addresses distinct and in range |
| `Network.AdvanceCounter` | src/network.rs:1025-1038 | moving a network's counter keeps the invariant, and unless its counter was lost the address it gives was never handed out |
| `Network.RemoveHalfway` | src/network.rs:731-768 | a removal that fails halfway leaves the counter behind an address handed out exactly if it takes the counter of a network that handed out addresses and leaves its metadata; the invariant is kept with that subnet among the lost ones, and without it exactly otherwise |
| `Network.LostCounterRepeats` | src/network.rs:731-1038 | after such a removal some number of further containers gets an address a second time if and only if the counter is lost and the bridge is still there |
| `Network.RepeatsExactly` | src/network.rs:994-1038 | at any moment without a repeated address, some number of further containers gets one if and only if the bridge is there and the counter is not above all addresses of the subnet |
| `NetworkStore.Store.AttachAgain` | src/network.rs:988-1055 | containers attached one after another get the addresses from the counter on, or none without the bridge |
| `NetworkStore.FirstAddressAgain` | src/network.rs:629-1055 | a run from an empty store in which a second container gets the first one's address |
| `Network.BridgeNames` | src/network.rs:644 | a bridge name fits Linux's limit exactly for names of up to eight bytes, and no two of these share a bridge |
| `Hosts.LookupAgreesExactly` | src/network.rs:910-920 | looking any name up in the text of the hosts file gives what the saved map says if and only if all its names are non-empty and free of blanks, newlines and `#` |
| `Hosts.WriteHostsText` | src/network.rs:915-919 | in any iteration order the text is one line per entry of the map |
| `NetworkStore.Store.AllocateIp` | src/network.rs:396-428 | hands out the counter's address and advances it, or changes nothing; no overflow |
| `NetworkStore.Store.AllocateNetworkOctet` | src/network.rs:1058-1074 | hands out an unused subnet octet or changes nothing; no overflow |
| `NetworkStore.Store.CreateNetwork` | src/network.rs:629-704 | succeeds exactly if the name is new and at most eight bytes, its bridge is not there, and each step works; the network gets a fresh subnet, a bridge and an empty map; a failure leaves at most a directory, a bridge and a used-up subnet |
| `NetworkStore.Store.RemoveNetwork` | src/network.rs:731-768 | removes exactly a network without containers, its bridge if that works; a failing removal leaves some of its files; a counter counts as lost exactly when one is |
| `NetworkStore.Store.AttachContainer` | src/network.rs:988-1055 | hands out the network's next address exactly if its bridge is there and every step works; the counter moves on exactly if its write works |
| `NetworkStore.Store.StartNetworkDns` | src/network.rs:833-907 | does nothing if the resolver runs, takes away its pid file if something else listens, and otherwise writes the hosts file and starts it; succeeds exactly then; changes only the network's resolver files |
| `NetworkStore.Store.UpdateNetworkDns` | src/network.rs:910-936 | succeeds exactly if the write works and the resolver runs or starts; then the hosts file holds the saved map |
| `NetworkStore.Store.RegisterContainer` | src/network.rs:786-803 | once saved the map gains or replaces the name; succeeds exactly if every step works, and then the hosts file matches it; it is not left wrong if the writes work; a failed save changes nothing |
| `NetworkStore.Store.UnregisterContainer` | src/network.rs:806-826 | once saved the map loses the name; succeeds exactly if every step works, and then the hosts file matches it, and the resolver is gone with the last container; it is not left wrong if the writes work; a failed save changes nothing |
| `NetworkStore.Store.Step` | src/network.rs:396-1074 | each operation hands out an address, creates, removes or changes a network's map exactly under its conditions, loses a counter exactly by a removal that does, and leaves a hosts file wrong only by a failing write or removal |
| `NetworkStore.Store.Execute` | src/network.rs:396-1074 | over any sequence of operations and failures no address is handed out twice except in a subnet whose counter a removal lost, all lie in 42 or 43..254 and 2..254, and wherever the last write worked lookup agrees with the map if and only if its names are plain |
| `NetworkStore.AllWritesWork` | src/network.rs:910-936 | if every write to a network's hosts file works over a run, the file is as right as before it |
| `NetworkStore.RewrittenSince` | src/network.rs:786-826 | a rewrite that works, with only working writes after it, leaves the file right whatever came before |
| `Firewall.InsertThenDelete` | src/network.rs:454-539 | setup then cleanup restores a chain exactly, for any rules and any chain |
| `Firewall.ChainIsBaseAndActive` | src/network.rs:450-547 | under any interleaving PREROUTING is the base rules plus those of the containers set up, as a multiset |
| `Firewall.OutputRestoredExactly` | src/network.rs:470-539 | whatever OUTPUT held, it is restored if and only if every mapping's host address ends in an empty mask |
| `Firewall.RulesLeftBehind` | src/network.rs:470-539 | an inserted rule gains one copy per mapping that inserts it without an empty mask, whatever OUTPUT held |
| `Firewall.ForeignRuleDeleted` | src/network.rs:530-539 | a rule in OUTPUT for a mapping's host address, port and target, which setup never inserts, loses a copy |
| `Firewall.DefaultAddress` | src/network.rs:470-539 | with the default host address the inserted rule stays and an equal rule for 0.0.0.0 goes |
| `Firewall.EmptyMask` | src/network.rs:470-539 | with `0.0.0.0/0` and `0.0.0.0/0.0.0.0` the chain comes back |
| `Firewall.TrafficForwarded` | src/network.rs:454-476 | after a setup, whatever the chain held, packets to a mapped host port go to the container port of the last such mapping, and all others go where they went |
| `Firewall.TrafficAfterCleanup` | src/network.rs:470-539 | after setup and cleanup of one mapping OUTPUT still forwards its port, unless its host address ends in an empty mask |
| `Iptables.AnyAddressExactly` | src/network.rs:530-539 | the argument of `-d` matches every address exactly when its mask is a quad of zeros or the number zero, however written |
| `Iptables.AddressReadBack` | src/network.rs:530-539 | the argument `a.b.c.d` names that address and no other |
| `Iptables.PrefixReadBack` | src/network.rs:530-539 | `a.b.c.d/n` is read as the masked address with that mask |
| `Iptables.PrefixMatches` | src/network.rs:530-539 | such a rule matches exactly the addresses that agree in the first n bits |
| `Iptables.MasksReadBack` | src/network.rs:530-539 | a mask is a dotted quad or a number up to 32, an octet a number up to 255 |
| `Iptables.ShortAddress` | src/network.rs:530-539 | an address cut short goes on with zeros |
| `Iptables.OtherBases` | src/network.rs:530-539 | numbers may be octal or hexadecimal, after blanks and a plus |
| `Firewall.NatTable.SetupPortForwarding` | src/network.rs:450-507 | inserts, at the head and in reverse order, one rule per port from its host port to the container's address and port, up to the first failing PREROUTING insert; OUTPUT gets the same rules but those whose own insert failed |
| `Firewall.NatTable.CleanupPortForwarding` | src/network.rs:510-547 | deletes the first equal rule per port, and from OUTPUT nothing for an address that cannot be read |
| `Firewall.DeleteFlushed` | src/network.rs:562-574 | deleting by text removes the very line found and leaves fewer matches |
| `Firewall.ListedChain.Flush` | src/network.rs:556-578 | for any failing lists and deletes: the first matching rules go, one per delete that works, and the others stay in order; it ends by itself exactly when a listing comes after as many such deletes as there were matches |
| `Iptables.ContainsBridge` | src/network.rs:563 | the listed rule to 10.0.t.l contains `10.0.42.` if and only if t is 42 |
| `Firewall.FlushedExactly` | src/network.rs:562-564 | a rule to 10.0.t.l is flushed if and only if t is 42 |
| `Firewall.FlushLeavesNamed` | src/network.rs:549-578 | no rule of Corten's is left after a flush if and only if none in the chain serves a named network |
| `Firewall.NoDnatKept` | src/network.rs:562-564 | a listed rule without DNAT is kept, whatever address it holds |
| `Firewall.ForeignLineFlushed` | src/network.rs:562-564 | a rule to 110.0.42.x is flushed although it is no rule of Corten's |
| `Firewall.FlushPortForwarding` | src/network.rs:552-580 | both chains keep their other rules; once both flushes end, no rule of Corten's is left if and only if none served a named network |
| `Decimal.ShowThenParse` | src/network.rs:401-423 | a written number reads back unless the type cannot hold it |
| `Decimal.MemoryReadExactly` | src/config.rs:281-300 | a size, with any Unicode blanks around it, is digits times 1, 1024, 1024² or 1024³ by its suffix, exactly when that fits in 64 bits; else the error says whether the number or the product does not |
| `Decimal.MemoryAcceptsOnly` | src/config.rs:281-300 | nothing but blanks, a number, an optional suffix of k, m, g and blanks is accepted |
| `Decimal.NumeralMeans` | src/config.rs:294-296 | a number is digits after at most one plus |
| `Decimal.PlusRead` | src/config.rs:294-296 | a number after a plus is read like without |
| `Decimal.BlanksAreEmpty` | src/config.rs:282-285 | blanks alone are reported as empty |
| `Volume.SizedVolume.Create` | src/main.rs:900-948 | at every step and failure exit the filesystem fits its file; the steps, the final sizes and the condition of success are given exactly |
| `Volume.SizedVolume.Resize` | src/main.rs:1007-1081 | at every step and failure exit the filesystem fits its file, except exactly when an unreadable length makes a shrink look like growth; the steps and the condition of success are given exactly, and on success file and filesystem have their new sizes |
| `Volume.CutExample` | src/main.rs:1011-1033 | the failing input: a 2 MiB volume, size `1k`, an unreadable length |
| `Volume.SizedVolume.Grow` | src/main.rs:1031-1050 | extends the file, then has the filesystem fill it; succeeds exactly if every step works; fits unless the filesystem was already larger than the new size |
| `Volume.SizedVolume.Shrink` | src/main.rs:1051-1072 | shrinks the filesystem to at most whole KiB, in its own blocks, then cuts the file; succeeds exactly if every step works |

## Left out

- OutputRestoredExactly: covers host addresses that are one numeric address with or without a mask, inserts
  that work and deletes that fail only for a missing rule or an unreadable address. Not modelled: lists with
  commas, host names, and iptables' limit on the length of the argument.
- LookupAgreesExactly: the reader splits lines as hosts(5) says; a resolver's limits on length, allowed
  characters and letter case are not modelled.
- Down: takes each service to have one container. Services that share a `container_name`, and a second `up`
  that starts containers of the same names again, of which `down` finds one each, are not modelled.
- RunLoop: without a limit the counter is given modulo its width, as an addition without overflow checks
  leaves it.
- Reading TOML, JSON and command lines; the resolver starts from a parsed map of services.
- Removal of a container's directory by another command while its monitor or a `stop` still runs.
- Terminal mode of the run loop, whose forwarder reaps the child itself.
- Port-mapping and volume-mount parsing; port numbers arrive parsed.
- Timestamps in the saved state, signals sent by `stop` (a child may exit at any step anyway) and its timeout.
- Partial file writes and two processes allocating at once; the code takes no locks, so operations are atomic.
- Network names that are themselves paths, or that the bridge name would cut inside a character.
- Firewall: the POSTROUTING and FORWARD rules, which are inserted and never deleted.
- Shell expansion itself: the reader marks words that would expand, and treats operators as single characters.
- Seccomp: only the instructions the generator emits, and only word 0 of the call data.
- Kernel effects of capabilities, mounts, namespaces and cgroups; each setup step of the parent is one action that works or fails.
- Unmounting and mounting in volume commands; e2fsck's repairs; volume listing, removal and pruning.
- Snapshots: a failed create leaves an archive that blocks its name, and a failed restore has already cleared
  the upper layer; each is seen in the one function that does it and spans no others.
- Image pulling, package managers, logs and statistics, which are calls of outside programs and formatting.
