# Gravital Share engine: a verified model

Gravital Share's Rust engine takes raw IP packets from a TUN device, gives every TCP flow a virtual
port, lets a userspace TCP stack (smoltcp) terminate the flow on that port, and relays it through a
SOCKS5 proxy. DNS queries are answered by packets the engine builds itself. A session automaton
drives all of it. This project models those parts in Dafny and proves what they promise.

| file | models |
|---|---|
| `Bytes.dfy`, `Checksum.dfy` | machine words; the Internet checksum of section 1 of RFC 1071 |
| `Ipv4.dfy`, `Rewrite.dfy` | packet views; in-place rewriting of IPv4/TCP packets |
| `Nat.dfy` | the virtual-port table |
| `Stack.dfy`, `Inner.dfy` | packets over whole runs of the stack; the stack's mutable state and poll cycle |
| `Session.dfy`, `Dispatch.dfy`, `Interleaving.dfy` | the automaton; sequential use by the engine; concurrent `dispatch` |
| `Socks.dfy`, `Handshake.dfy` | the SOCKS5 codec; client and server over two streams |
| `Dns.dfy` | synthesised DNS replies |
| `UdpGw.dfy`, `Mux.dfy` | udpgw frames; the association table under interleaved callers |
| `Backoff.dfy` | reconnection delays |

`dafny verify dfyconfig.toml` checks everything.

Code that edits a buffer, a table or a queue is a method on an array or a class, proved equal to a
function of its old contents; the theorems are about those functions. smoltcp, dialing and the
order in which concurrent callers run are arguments, so the theorems hold for every choice of them.

Properties that turned out false of the code are stated with their exact condition, and shown to
fail:

- A NAT entry is never released. `poll` takes the handle out of `active` before it looks up the
  handle's port there (stack.rs:97-101), so the table holds 50,000 flows per lifetime and not
  50,000 concurrent ones (`Inner.Inner.CloseSocket`, `Stack.ExhaustionIsPermanent`). One client
  using 50,000 source ports in turn gets there (`Stack.ExhaustionIsReached`).
- A listener is opened only for a remote nobody serves yet (stack.rs:141), so of all connections to
  one server at most one is sent to a port with a listener (`Inner.NewFlowHeardIff`,
  `Inner.OneFlowPerRemoteIsHeard`, `Inner.TwoConnectionsToOneServer`).
- A rewrite is undone byte for byte exactly when the packet's checksums were correct and neither
  was written as 0xFFFF (`Rewrite.RestoringPortUndoesRewriteIff`); a packet whose checksums were
  left to the network card does not come back (`Rewrite.UnfilledChecksumIsNotRestored`).
- The TCP checksum is computed over the whole buffer, although a receiver ends the segment at the
  total length. A padded packet is accepted exactly when the padding is neutral in ones' complement
  (`Rewrite.InboundAcceptedIff`), which zero padding never is (`Rewrite.ZeroPaddingIsRefused`).
- `dispatch` releases its read lock before it takes the write lock, unlike the version in
  docs/02-architecture/05-session-state-machine.md, so an accepted stop can be overwritten
  by a second start task (`Interleaving.StopCanBeLost`). No update is lost exactly when every store met a guard on the
  state it overwrote (`Interleaving.NothingLostIff`).
- Listeners are told after the write, so the last state announced need not be the current one
  (`Interleaving.ListenerCanBeMisled`). It is exactly when the last announcement was made while the
  state it told of was still current (`Interleaving.LastAnnouncedIsCurrentIff`, and with resets
  `Interleaving.ListenerIsRightIff`); the log is the history exactly when each announcement was for
  the oldest store waiting (`Interleaving.AnnouncedInOrderIff`).
- A domain over 255 bytes, and a udpgw payload over 65,535 bytes, do not survive encoding
  (`Socks.DecodeInvertsEncodeIff`, `UdpGw.DecodeInvertsEncodeIff`).
- Identifiers of udpgw associations repeat after 2^32 allocations; an insert then overwrites a live
  association exactly when one is a multiple of 2^32 away (`Mux.InsertOverwritesIff`), and
  `Mux.WrapOverwrites` is a run in which it does.
- A query that cannot be resolved is answered with SERVFAIL only from four bytes on; shorter ones are
  echoed or answered with nothing (`Dns.FailedQueryIsAnswered`).
- A DNS reply whose UDP checksum computes to zero is sent with a zero field, which RFC 768 reads as
  no checksum at all (`Dns.ReplyIsUnprotectedIff`); every query has such replies
  (`Dns.EveryQueryHasUnprotectedReply`).

One more condition concerns robustness only: the drain loop tests less than the rewrite does, so a
packet with a cut-off TCP header would go out undisguised (`Stack.DisguisedIff`). smoltcp as
configured does not emit one.

The code also goes beyond the transition table in that document: it accepts `EnginePrepared` in
Preparing, `ProxyDisconnected` in Connecting and Connected, and `FatalError` in Idle, Stopping and
Failed. The model follows the code, and `Session.TransitionFollowsTable` proves that nothing else
differs.

## Model

| member | source | states |
|---|---|---|
| `Checksum.DeferredCarriesAreOnesSum` | engine/crates/gravital-proto/src/checksum.rs:3-20 | adding words first and folding carries afterwards yields RFC 1071's word-by-word end-around-carry sum, for every byte string |
| `Checksum.TwoFoldsSuffice` | engine/crates/gravital-proto/src/checksum.rs:37-42 | for every 32-bit accumulator two rounds of folding reach the canonical residue modulo 65535 |
| `Checksum.Fold` | engine/crates/gravital-proto/src/checksum.rs:37-42 | the folding loop terminates and returns the complement of the canonical residue |
| `Checksum.AddWords` | engine/crates/gravital-stack/src/rewrite.rs:65-76 | the accumulation loop never overflows 32 bits and adds exactly the words of its data to what it started from |
| `Checksum.ChecksumOf` | engine/crates/gravital-stack/src/rewrite.rs:15-29 | the loop returns RFC 1071's checksum for up to 65,535 bytes without overflow; `rfc1071` in runner.rs is the same loop |
| `Checksum.ChecksumOfBoth` | engine/crates/gravital-stack/src/rewrite.rs:64-80 | a checksum accumulated over pseudo-header and segment in turn is the checksum of their concatenation |
| `Checksum.InternetChecksum` | engine/crates/gravital-proto/src/checksum.rs:3-20 | the third implementation agrees with the other two |
| `Checksum.PseudoHeaderV4` | engine/crates/gravital-proto/src/checksum.rs:24-33 | the straight-line sum is the word sum of the twelve pseudo-header bytes of section 3.1 of RFC 793 |
| `Checksum.SealedVerifies` | engine/crates/gravital-stack/src/rewrite.rs:34-41 | zeroing a field, computing the checksum and storing it makes the whole data sum to all ones |
| `Checksum.SealedIsIdentityIff` | engine/crates/gravital-stack/src/rewrite.rs:34-41 | storing the checksum changes nothing exactly when the data verified and did not write zero as 0xFFFF |
| `Ipv4.VerifyChecksum` | engine/crates/gravital-proto/src/ip.rs:125-133 | a header is accepted exactly when its words, checksum included, sum to 0xFFFF |
| `Stack.FeedableIsWellFormed` | engine/crates/gravital-proto/src/ip.rs:71-86 | a packet the engine feeds to the stack and that is IPv4/TCP has a header of at least twenty bytes |
| `Ipv4.FedToStackIff` | engine/crates/gravital-proto/src/ip.rs:36-86 | on bytes, which packets reach the TCP stack: IPv4 with a whole header of at least twenty bytes and protocol 6, or IPv6 with a whole header and next header 6 |
| `Rewrite.TcpAddrsAre` | engine/crates/gravital-stack/src/rewrite.rs:158-178 | a flow is read off bytes 12 to 19 and the two ports behind the header, high byte first, exactly when a whole TCP header is there |
| `Rewrite.IsTcpSynIff` | engine/crates/gravital-stack/src/rewrite.rs:181-189 | for every setting of the eight flag bits a packet opens a connection exactly when SYN is set and ACK is clear |
| `Rewrite.FlagsOf` | engine/crates/gravital-stack/src/rewrite.rs:186-188 | every byte is the flag byte of some setting of the eight bits, so the previous row covers all packets |
| `Rewrite.FixIpv4Checksum` | engine/crates/gravital-stack/src/rewrite.rs:34-41 | the in-place repair computes the specified packet |
| `Rewrite.FixTcpChecksum` | engine/crates/gravital-stack/src/rewrite.rs:48-82 | the in-place repair over pseudo-header and segment computes the specified packet |
| `Rewrite.RewriteInbound` | engine/crates/gravital-stack/src/rewrite.rs:90-114 | refuses, leaving the bytes alone, exactly when the version is not 4, the protocol not 6 or a whole TCP header not there; otherwise computes the specified packet, for every header length |
| `Rewrite.RewriteOutbound` | engine/crates/gravital-stack/src/rewrite.rs:124-152 | the same for the outbound direction; the precondition is exactly that the source does not panic, which only a header length of zero can bring about |
| `Rewrite.FixTcpSeals` | engine/crates/gravital-stack/src/rewrite.rs:48-82 | repairing the TCP checksum seals exactly what it covers and leaves the IPv4 header as it was |
| `Rewrite.FixIpv4Seals` | engine/crates/gravital-stack/src/rewrite.rs:34-41 | repairing the header checksum afterwards seals the header and does not disturb the TCP checksum |
| `Rewrite.InboundChecksumsHold` | engine/crates/gravital-stack/src/rewrite.rs:90-114 | after an inbound rewrite both checksums verify over the buffer, whatever they were before |
| `Rewrite.OutboundChecksumsHold` | engine/crates/gravital-stack/src/rewrite.rs:124-152 | after an outbound rewrite both checksums verify over the buffer |
| `Rewrite.ChecksumsHoldIff` | engine/crates/gravital-stack/src/rewrite.rs:48-82 | both checksums verify exactly when the header's words, and the address words, 6, the segment length and the segment's words, add up to multiples of 65535 |
| `Rewrite.InboundAcceptedIff` | engine/crates/gravital-proto/src/ip.rs:119-123 | a receiver, which ends the segment at the total length, accepts an inbound rewrite always when there is no padding, and otherwise exactly when padding and padding length sum to zero modulo 65535 |
| `Rewrite.OutboundAcceptedIff` | engine/crates/gravital-proto/src/ip.rs:119-123 | the same for an outbound rewrite |
| `Rewrite.ZeroPaddingIsRefused` | engine/crates/gravital-stack/src/rewrite.rs:48-82 | a packet with zero padding is refused by the receiver after every rewrite |
| `Rewrite.InboundFrame` | engine/crates/gravital-stack/src/rewrite.rs:108-113 | only the destination port and the checksum fields change, and the packet reads back with the new port |
| `Rewrite.OutboundFrame` | engine/crates/gravital-stack/src/rewrite.rs:143-150 | only source address, source port and checksum fields change, and the packet reads back with the new source |
| `Rewrite.LastRewriteWins` | engine/crates/gravital-stack/src/rewrite.rs:90-114 | of two inbound rewrites the second decides every byte |
| `Rewrite.RestoringPortUndoesRewriteIff` | engine/crates/gravital-stack/src/rewrite.rs:90-114 | restoring the original port gives back the original packet byte for byte exactly when its checksums were correct and canonical |
| `Rewrite.UnfilledChecksumIsNotRestored` | engine/crates/gravital-stack/src/rewrite.rs:199-218 | a SYN with zero checksum fields is not given back, whatever port it was rewritten to |
| `Nat.ScanIsCyclicallyFirst` | engine/crates/gravital-stack/src/nat.rs:39-51 | the scan finds the free port the cursor meets first, and fails only when every port in reach is taken |
| `Nat.InsertRefines` | engine/crates/gravital-stack/src/nat.rs:33-52 | insertion keeps the bijection and the port range, extends the map at one key only, is idempotent, allocates the cyclically first free port, and refuses a new flow exactly when all ports are taken, leaving table and cursor unchanged |
| `Nat.RemoveRefines` | engine/crates/gravital-stack/src/nat.rs:65-69 | removal deletes exactly one pair from both maps and keeps the bijection |
| `Nat.RemoveUndoesInsert` | engine/crates/gravital-stack/src/nat.rs:33-69 | removing the port just allocated restores both maps |
| `Nat.FullIffCapacity` | engine/crates/gravital-stack/src/nat.rs:19-20 | both maps have the same size, at most 50,000, and all ports are taken exactly at 50,000 flows |
| `Nat.NatTable.constructor` | engine/crates/gravital-stack/src/nat.rs:23-29 | a new table is empty and valid |
| `Nat.NatTable.Insert` | engine/crates/gravital-stack/src/nat.rs:33-52 | the loop terminates and does to the fields what the specification does to the table |
| `Nat.NatTable.LookupForward` | engine/crates/gravital-stack/src/nat.rs:55-57 | finds the port exactly of known flows |
| `Nat.NatTable.LookupReverse` | engine/crates/gravital-stack/src/nat.rs:60-62 | finds the flow exactly of ports in use |
| `Nat.NatTable.RemoveByVport` | engine/crates/gravital-stack/src/nat.rs:65-69 | does to the fields what removal does to the table and keeps it valid |
| `Stack.AdmitKeeps` | engine/crates/gravital-stack/src/stack.rs:128-162 | admitting a packet keeps the run invariant and forgets no flow |
| `Stack.EmitKeeps` | engine/crates/gravital-stack/src/stack.rs:109-121 | emitting a packet keeps the run invariant |
| `Stack.RunKeeps` | engine/crates/gravital-stack/src/stack.rs:80-124 | over every run of feeds, polls and drains, with every behaviour of smoltcp, the invariant holds and no flow or logged packet is lost or altered |
| `Stack.Demultiplexing` | engine/crates/gravital-stack/src/stack.rs:128-162 | over a whole run two packets reach smoltcp on the same port exactly when they belong to the same flow, retransmitted SYNs included, and the port leads back to that flow |
| `Stack.Transparency` | engine/crates/gravital-stack/src/stack.rs:109-162 | once a packet S to D has crossed, whatever smoltcp later sends from its port to S leaves as a packet D to S that a receiver accepts, with no other byte changed |
| `Stack.LoggedTransparency` | engine/crates/gravital-stack/src/stack.rs:109-162 | the same for the logged traffic of every run: what left from a flow's port to its source was written as coming from its remote |
| `Stack.AdmittedIff` | engine/crates/gravital-stack/src/stack.rs:128-162 | a fed packet reaches smoltcp, on its own flow's port and at the end of the queue, exactly when its flow is known or it is a SYN and fewer than 50,000 flows are; otherwise nothing changes |
| `Stack.UnknownFlowAdmittedIff` | engine/crates/gravital-stack/src/stack.rs:138-156 | a packet of an unknown flow is admitted exactly when SYN is set, ACK is clear and there is room, whatever its other six flag bits; a mid-flow segment leaves no trace |
| `Stack.Ipv6IsDropped` | engine/crates/gravital-stack/src/stack.rs:131-135 | TCP over IPv6 is fed to the stack but never enters it |
| `Stack.PollDelivers` | engine/crates/gravital-stack/src/stack.rs:80-88 | of the queued packets exactly those cross whose flow is known in their turn, or that are SYNs with room left, in order; all of them are at the end of smoltcp's queue, less what smoltcp took, and the table has learned exactly their flows |
| `Stack.NothingLostInbound` | engine/crates/gravital-stack/src/stack.rs:80-162 | over every run of a new stack: everything fed has been polled or waits in order, exactly what should cross has crossed in order, and no more has left smoltcp's queue than it took |
| `Stack.NothingLostOutbound` | engine/crates/gravital-stack/src/stack.rs:109-121 | over every run: what was drained, followed by what waits, is what waited before followed by everything written since, in order |
| `Stack.PollDrains` | engine/crates/gravital-stack/src/stack.rs:80-124 | after a poll both queues are empty and everything smoltcp sent for a known flow has been written, in order and disguised |
| `Stack.DisguisedIff` | engine/crates/gravital-stack/src/stack.rs:109-121 | an emitted packet is written exactly when it is IPv4/TCP with a port pair and its source port is in use, and disguised as the flow's remote exactly when it has a whole TCP header |
| `Stack.ExhaustionIsPermanent` | engine/crates/gravital-stack/src/stack.rs:94-106 | once 50,000 flows are known the table never changes again, and only their packets reach smoltcp |
| `Stack.DistinctSynsFill` | engine/crates/gravital-stack/src/stack.rs:138-145 | any SYNs of different flows, up to 50,000, fed to a new stack are all in the table and nothing else is |
| `Stack.ExhaustionIsReached` | engine/crates/gravital-stack/src/stack.rs:94-106 | a run of 50,000 SYNs from one client to one server fills the table |
| `Inner.NewFlowHeardIff` | engine/crates/gravital-stack/src/stack.rs:138-145 | a SYN of a new flow finds a socket listening on the port it is given exactly when no tracked socket serves its remote and smoltcp agrees to listen |
| `Inner.OneFlowPerRemoteIsHeard` | engine/crates/gravital-stack/src/stack.rs:141 | in every consistent state at most one of the flows to one remote has a listening socket |
| `Inner.SecondConnectionIsDeaf` | engine/crates/gravital-stack/src/stack.rs:138-145 | of two new connections to a server nobody serves, the first one's port gets a listener and the second one's does not |
| `Inner.TwoConnectionsToOneServer` | engine/crates/gravital-stack/src/stack.rs:138-145 | on a new stack two SYNs to 8.8.8.8:443 get ports 10,000 and 10,001, and only the first has a listener |
| `Inner.Inner.FeedInbound` | engine/crates/gravital-stack/src/stack.rs:306-308 | appends to the TUN queue behind what is there and touches nothing else |
| `Inner.Inner.DrainOutbound` | engine/crates/gravital-stack/src/stack.rs:311-313 | removes and returns the oldest rewritten packet and no other, or returns none exactly when there is none |
| `Inner.Inner.Accept` | engine/crates/gravital-stack/src/stack.rs:323-325 | returns pending connections in order; the local port of each leads back through the table to its remote |
| `Inner.Inner.CreateListener` | engine/crates/gravital-stack/src/stack.rs:165-193 | tracks one new socket on a fresh handle, and nothing exactly when smoltcp refuses to listen; a connection from 10.0.2.2 and the port to the remote is queued exactly while fewer than 128 wait |
| `Inner.Inner.ProcessInbound` | engine/crates/gravital-stack/src/stack.rs:128-162 | does to the packet state what admission specifies; opens a socket on 10.0.2.2 and the flow's port exactly for an admitted SYN to an unserved remote on a port smoltcp agrees to listen on |
| `Inner.Inner.VportOfHandle` | engine/crates/gravital-stack/src/stack.rs:243-255 | the lowest port whose flow has the handle's remote, and none for an untracked handle |
| `Inner.Inner.CloseSocket` | engine/crates/gravital-stack/src/stack.rs:97-102 | closing a socket drops the handle and changes no table entry |
| `Inner.Inner.ServiceSockets` | engine/crates/gravital-stack/src/stack.rs:91-106 | in whatever order handles are visited, exactly the closed ones go, no lookup fails, and the packet state is untouched |
| `Inner.Inner.EmitOne` | engine/crates/gravital-stack/src/stack.rs:109-121 | one turn of the drain loop does what emission specifies |
| `Inner.Inner.Poll` | engine/crates/gravital-stack/src/stack.rs:80-124 | a poll is one step of the run model: the TUN queue is delivered as `Stack.PollDelivers` says and both queues end empty; the listeners change by the queued packets in order and then lose exactly the closed sockets, and more polling is asked for exactly on progress or a close |
| `Session.TransitionFollowsTable` | docs/02-architecture/05-session-state-machine.md:118-136 | every listed pair of state and event makes the listed transition, every other pair is rejected except six the code adds, and the mode is kept |
| `Session.FatalErrorFromAnyState` | engine/crates/gravital-engine/src/session.rs:33-37 | a fatal error is accepted in every state and keeps the mode; of the eight kinds exactly ProxyUnreachable and DnsResolveFailed are recoverable |
| `Session.ReachableIffCoherent` | engine/crates/gravital-engine/src/session.rs:151-214 | the states reachable from Idle are exactly the coherent ones: attempt 1, no recorded error, no FatalError stop reason, recoverability matching the failure |
| `Session.HistoryExplainsState` | engine/crates/gravital-engine/src/session.rs:151-214 | in every run the current state is explained by the events accepted since Idle: Connected needs UserStart of its mode, then EngineReady, then only link events ending in ProxyConnected with the stored peer |
| `Session.ModeIsConstantAwayFromIdle` | engine/crates/gravital-engine/src/session.rs:151-214 | the mode is constant from leaving Idle until the next Idle |
| `Session.ConnectedOnlyThroughIdle` | engine/crates/gravital-engine/src/session.rs:201-203 | after Failed or Stopping, Connected is reachable only through Idle |
| `Dispatch.Session.Dispatch` | engine/crates/gravital-engine/src/session.rs:122-140 | a rejected event changes nothing; a change is stored and told once to every listener |
| `Dispatch.Session.ForceIdle` | engine/crates/gravital-engine/src/session.rs:114-116 | resets to Idle without telling anyone |
| `Dispatch.Session.AddListener` | engine/crates/gravital-engine/src/session.rs:118-120 | adds a listener that has been told nothing |
| `Dispatch.ListenersSeeHistory` | engine/crates/gravital-engine/src/session.rs:122-140 | under sequential use every listener is told exactly the history of states since it was registered |
| `Dispatch.ChangesAreStutterFree` | engine/crates/gravital-engine/src/session.rs:126-138 | that history has no repetitions and ends in the current state |
| `Dispatch.StartFromAnyState` | engine/crates/gravital-engine/src/runner.rs:84-103 | a start from any state ends in Connecting of the requested mode, attempt 1, with both steps announced to every listener |
| `Dispatch.EngineStepAnnounces` | engine/crates/gravital-engine/src/runner.rs:81-197 | for every call, task event and state: which states are announced, with which mode, peer, reason and failure, and that the last of them is the state left |
| `Dispatch.EngineLogIsStory` | engine/crates/gravital-engine/src/runner.rs:81-197 | over every sequence of calls and task events the listener's whole log is determined by the calls, and its last entry is the state |
| `Dispatch.EngineKeepsListenerInformed` | engine/crates/gravital-engine/src/runner.rs:81-192 | after every sequence of starts, stops and task events the last announced state is the current one |
| `Dispatch.Engine.StartMode` | engine/crates/gravital-engine/src/runner.rs:84-103 | a start never fails on the session's account |
| `Dispatch.Engine.StartServerNow` | engine/crates/gravital-engine/src/runner.rs:81-103 | a server start ends in Connecting(Server, 1) and announces exactly Preparing(Server) and Connecting(Server, 1) |
| `Dispatch.Engine.StartClientOn` | engine/crates/gravital-engine/src/runner.rs:121-130 | a client start is refused, with the session untouched, exactly for a negative descriptor; otherwise it ends in Connecting(Client, 1) and announces exactly Preparing(Client) and Connecting(Client, 1) |
| `Dispatch.Engine.StopSession` | engine/crates/gravital-engine/src/runner.rs:188-192 | stop succeeds exactly in Connected and Reconnecting, and then announces Stopping with the same mode at the user's request |
| `Dispatch.Engine.TaskConnects` | engine/crates/gravital-engine/src/runner.rs:106-107 | a task's success turns Connecting or Reconnecting into Connected with its peer, announced once, and changes nothing elsewhere |
| `Dispatch.Engine.TaskFails` | engine/crates/gravital-engine/src/runner.rs:140-157 | a TUN device or stack that cannot be opened leads from every state to Failed(TunOpenFailed), not recoverable |
| `Dispatch.Engine.TaskStops` | engine/crates/gravital-engine/src/runner.rs:181 | the end of a task leads from Stopping to Idle and changes nothing elsewhere |
| `Interleaving.StoredStatesAreReachable` | engine/crates/gravital-engine/src/session.rs:114-141 | with reads, writes, announcements and resets of any number of callers interleaved, every state stored or announced is one a sequential run reaches |
| `Interleaving.NothingLostIff` | engine/crates/gravital-engine/src/session.rs:122-140 | after every prefix of an interleaved run the state is that of a sequential run of the stores' events, exactly when every store met the guard |
| `Interleaving.StoreIsSequentialIff` | engine/crates/gravital-engine/src/session.rs:123-133 | a write computed from an old state leaves what a sequential dispatch would leave, exactly when old and current state are interchangeable for the event or the new state is already there |
| `Interleaving.StopCanBeLost` | engine/crates/gravital-engine/src/session.rs:122-140 | from every Connecting state two start tasks and a user can interleave, with events the engine sends, so that an accepted stop is overwritten by Connected |
| `Interleaving.ListenerCanBeMisled` | engine/crates/gravital-engine/src/session.rs:133-137 | from every Connecting state a start task and a user can interleave so that the last state announced is Connected although the session is stopping |
| `Interleaving.LastAnnouncedIsCurrentIff` | engine/crates/gravital-engine/src/session.rs:133-137 | at rest after a dispatched store the last announced state is the current one exactly when the last announcement was made while the state it told of was still current |
| `Interleaving.ListenerIsRightIff` | engine/crates/gravital-engine/src/session.rs:114-141 | the same for every run at rest, silent resets included: a listener that heard nothing faces Idle, and otherwise each reset after the last announcement must find Idle heard last |
| `Interleaving.AnnouncedInOrderIff` | engine/crates/gravital-engine/src/session.rs:133-137 | at rest every store has been announced once and in order exactly when each announcement was made for the oldest store waiting, and then the log is the history of dispatched states |
| `Interleaving.UndisturbedLogIsHistory` | engine/crates/gravital-engine/src/session.rs:133-137 | if nobody stores while an announcement is outstanding, the log at rest is the history of dispatched states |
| `Interleaving.SoloIsDispatch` | engine/crates/gravital-engine/src/session.rs:122-140 | undisturbed, the separate read, write and announcement are the sequential dispatch |
| `Socks.DecodeInvertsEncodeIff` | engine/crates/gravital-socks/src/proto.rs:118-136 | an encoded address decodes to itself, whatever follows, exactly when the domain has at most 255 bytes |
| `Socks.EncodeInvertsDecode` | engine/crates/gravital-socks/src/proto.rs:230-260 | the bytes a decoder consumes are the encoding of what it returns |
| `Socks.PrefixFree` | engine/crates/gravital-socks/src/proto.rs:118-136 | no address encoding is a prefix of another |
| `Socks.AddressLayout` | engine/crates/gravital-socks/src/proto.rs:118-136 | the encoding on bytes: types 1, 3 and 4, the length byte of a domain truncated to eight bits, the port high byte first |
| `Socks.TruncatedAddressFails` | engine/crates/gravital-socks/src/proto.rs:93-112 | every proper prefix of an encoded address is a premature end |
| `Socks.RequestMeansIff` | engine/crates/gravital-socks/src/proto.rs:21-31 | code 1 is CONNECT, 2 is BIND and 3 is UDP ASSOCIATE, read in full exactly when the name fits its length byte, whatever the reserved byte and what follows; every other code and version is refused by name |
| `Socks.TruncatedRequestFails` | engine/crates/gravital-socks/src/proto.rs:82-115 | every proper prefix of a request is a premature end |
| `Socks.MethodChoice` | engine/crates/gravital-socks/src/proto.rs:173-184 | method 0 is chosen whenever it is offered, otherwise 2 if the server wants authentication, otherwise none |
| `Socks.BoundIsSkipped` | engine/crates/gravital-socks/src/proto.rs:188-201 | behind a reply header exactly an address of any known type is skipped |
| `Socks.ReadRequest` | engine/crates/gravital-socks/src/proto.rs:82-115 | parses one request with every failure in the source's order, and consumes exactly its bytes |
| `Socks.ParseUdpDatagram` | engine/crates/gravital-socks/src/proto.rs:221-261 | the offset parser gives the same address, port, length and failure as the stream parser and never reads past the end |
| `Socks.NegotiateMethod` | engine/crates/gravital-socks/src/proto.rs:160-185 | consumes exactly the greeting and answers 5 and the chosen method, or 5 and 0xFF on a refusal |
| `Socks.SkipBoundAddress` | engine/crates/gravital-socks/src/proto.rs:188-201 | consumes exactly the bound address and port, and nothing for an unknown type |
| `Handshake.ClientConnect` | engine/crates/gravital-socks/src/client.rs:31-74 | what the client sends and consumes, and how it fails, for everything a server can send |
| `Handshake.ServerHandle` | engine/crates/gravital-socks/src/server.rs:80-130 | what the server sends, consumes and returns before relaying, for everything a client can send, every command and every outcome of dialing |
| `Handshake.AnswerIs` | engine/crates/gravital-socks/src/server.rs:87-138 | on bytes, for every command and outcome: BIND gets code 7, a refused, timed-out or otherwise failed connection 5, 6 or 4, a granted one the bound address; and which of them end in an error |
| `Handshake.ClientStopsAtData` | engine/crates/gravital-socks/src/client.rs:57-74 | after a success reply the client's stream is at the first byte of data |
| `Handshake.ClientReadsReply` | engine/crates/gravital-socks/src/client.rs:45-74 | a wrong version or method is fatal, a code other than 0 is reported whatever the reply's own version byte, and after code 0 all behind a bound address of any type is data |
| `Handshake.TruncatedReplyFails` | engine/crates/gravital-socks/src/client.rs:36-74 | every proper prefix of the server's half of the handshake is a premature end |
| `Handshake.RequestRecoveredIff` | engine/crates/gravital-socks/src/client.rs:52-55 | the server recovers the client's target and stops behind the request exactly when the name fits its length byte |
| `Handshake.HandshakeAgreement` | engine/crates/gravital-socks/src/server.rs:73-124 | in every interleaving the server dials only the client's target, each relay receives exactly what the other sent, and the client fails only with the server's own refusal or after a drop |
| `Handshake.AutomatonIsCode` | engine/crates/gravital-socks/src/client.rs:31-74 | in every interleaving and at every position each side has consumed and written exactly what the client and server methods have at that point, and ends with their result |
| `Handshake.SomeoneCanMove` | engine/crates/gravital-socks/src/server.rs:73-124 | the handshake never deadlocks |
| `Handshake.AtMostSevenMoves` | engine/crates/gravital-socks/src/client.rs:26-75 | no run needs more than seven handshake moves |
| `Dns.ReplyReadsBack` | engine/crates/gravital-engine/src/runner.rs:427-497 | the built reply is a whole unfragmented datagram with 64 hops to live, and the packet parsers read it back: same payload, addresses and ports swapped, both checksums right, and a true length field exactly up to 65,507 bytes |
| `Dns.DatagramIsRead` | engine/crates/gravital-engine/src/runner.rs:418-436 | the parsers find destination port and payload of a datagram behind a header of any length, without padding, and nothing in one that is cut off |
| `Dns.ReplyIsUnprotectedIff` | engine/crates/gravital-engine/src/runner.rs:479-497 | the UDP checksum field is zero exactly when the covered words add up to a multiple of 65535 |
| `Dns.EveryQueryHasUnprotectedReply` | engine/crates/gravital-engine/src/runner.rs:479-497 | for every query and every even payload there is a last word with which the reply leaves unprotected |
| `Dns.BuildUdpReply` | engine/crates/gravital-engine/src/runner.rs:439-471 | stays in bounds and builds the specified reply, or none for a packet that is not IPv4/UDP |
| `Dns.FixIp4Checksum` | engine/crates/gravital-engine/src/runner.rs:473-477 | the in-place header repair computes the specified packet |
| `Dns.FixUdpChecksum` | engine/crates/gravital-engine/src/runner.rs:479-497 | the in-place datagram repair computes the specified packet, for every header length |
| `Dns.FixUdpVerifies` | engine/crates/gravital-engine/src/runner.rs:479-497 | the repaired datagram verifies under its pseudo-header behind a header of any length, and no other byte changes |
| `Dns.UdpSum` | engine/crates/gravital-engine/src/runner.rs:483-495 | summing address words, 17 and the length without building the pseudo-header gives the checksum over it |
| `Dns.BuildServfail` | engine/crates/gravital-dns/src/interceptor.rs:56-67 | overwrites the two flag bytes of a copy, or returns nothing for fewer than two bytes |
| `Dns.ServfailAnswersQueryIff` | engine/crates/gravital-dns/src/interceptor.rs:56-67 | same id, a response to a standard query with RD and RA set, AA, TC and Z clear and code 2, and the query's own bytes behind the flags, exactly when the query has at least four bytes |
| `Dns.FailedQueryIsAnswered` | engine/crates/gravital-engine/src/runner.rs:271-285 | every intercepted query that cannot be resolved is one the builder accepts and is answered to its sender, from port 53, with both checksums and the length right; the answer is a SERVFAIL exactly from four bytes on |
| `UdpGw.DecodeInvertsEncodeIff` | engine/crates/gravital-udpgw/src/frame.rs:26-96 | an encoded frame decodes to itself, whatever follows, exactly when the payload fits 16 bits and only named flags are set |
| `UdpGw.EncodeInvertsDecode` | engine/crates/gravital-udpgw/src/frame.rs:49-96 | encoding a decoded frame reproduces the consumed bytes with only unnamed flag bits cleared |
| `UdpGw.Layout` | engine/crates/gravital-udpgw/src/frame.rs:26-47 | the frame on bytes: version 1, flags, client, family 1 or 4 with its octets, port, length, payload |
| `UdpGw.TruncatedFrameFails` | engine/crates/gravital-udpgw/src/frame.rs:49-96 | every proper prefix of a frame is truncated |
| `UdpGw.Encode` | engine/crates/gravital-udpgw/src/frame.rs:26-47 | the buffer built field by field is the specified frame |
| `UdpGw.Decode` | engine/crates/gravital-udpgw/src/frame.rs:49-96 | the offset walk accepts and fails as the specified decoder does |
| `Mux.SameIdIff` | engine/crates/gravital-udpgw/src/mux.rs:27 | two allocations share an identifier exactly when they are a multiple of 2^32 apart |
| `Mux.RunKeeps` | engine/crates/gravital-udpgw/src/mux.rs:26-42 | in every interleaving of any number of allocations and releases each entry is the own address of the call that made it |
| `Mux.InsertOverwritesIff` | engine/crates/gravital-udpgw/src/mux.rs:27-28 | an insert overwrites an association exactly when one is live whose allocation lies a non-zero multiple of 2^32 away |
| `Mux.WrapOverwrites` | engine/crates/gravital-udpgw/src/mux.rs:26-30 | 2^32 + 1 allocations without a release overwrite the first association, and the active count falls behind the inserts |
| `Mux.ActiveCountIsConserved` | engine/crates/gravital-udpgw/src/mux.rs:40-42 | the table's size is completed inserts minus effective releases and overwrites, and up to 2^32 allocations nothing is overwritten |
| `Mux.StaysLiveIff` | engine/crates/gravital-udpgw/src/mux.rs:32-38 | any step of any caller leaves a live association live exactly unless it releases its identifier or inserts it again from a multiple of 2^32 away |
| `Mux.LookupUntilDisplaced` | engine/crates/gravital-udpgw/src/mux.rs:32-38 | over any run without such a step the association is found with its own address |
| `Mux.UdpGwMux.AllocateId` | engine/crates/gravital-udpgw/src/mux.rs:26-30 | an undisturbed call is the model's two steps, and its association is live afterwards |
| `Backoff.DelayIsCappedExponential` | engine/crates/gravital-engine/src/session.rs:218-221 | saturation never shows: the delay is min(30000, 250 * 2^(n-1)) over unbounded integers, and capped exactly from attempt 8 |
| `Backoff.DelayIsMonotone` | engine/crates/gravital-socks/src/client.rs:78-81 | delays never decrease |
| `Backoff.TotalSleepClosedForm` | engine/crates/gravital-socks/src/client.rs:90-107 | total sleep after k failures is 250 * (2^k - 1) up to k = 7 and 31750 + 30000 * (k - 7) beyond |
| `Backoff.ConnectWithRetry` | engine/crates/gravital-socks/src/client.rs:84-109 | stops at the first success or after the last attempt, having slept exactly the delays in between |

## Left out

- smoltcp, the device glue and the data path of `service_socket`: an unseen library, and a relay that may discard bytes by design.
- Whether smoltcp hands a packet addressed to a remote to a socket that listens on 10.0.2.2: up to smoltcp; the model records the listening address and speaks of ports.
- tokio tasks, sockets, timers, the TUN reader and writer, the shutdown channel and relay loops: input and output.
- The UDP relay of the SOCKS5 server: only its datagram parser and the reply that opens it are modelled.
- UTF-8 decoding and name lookup: a domain is the byte sequence on the wire.
- HTTP CONNECT, the JNI and C interfaces, JSON, metrics, logging and all Kotlin code: thin wrappers or easy members.
- The interceptor's query and failure counters: easy members.
- Scope and flow labels of IPv6 socket addresses: the engine always sets them to zero.
- Dns.BuildUdpReply: requires a whole UDP port pair and at most 65,527 response bytes, because the source panics otherwise; its callers guarantee both.
