# Verification models of the tm_kit transport layer

These Dafny modules model the parts of the transport layer whose correctness depends on
interleavings, retries and exact text formats, and prove what those parts promise their users.
`dafny verify dfyconfig.toml` checks everything.

## What is modelled

**Shared chains.** Any number of clients append to one linked list kept in etcd or Redis.
`AppendLog` is the abstract object: a sequence that starts at a head node and grows by one item at
its end. `EtcdStore` is the service as clients may rely on it: a transaction evaluates all its
comparisons and puts at one revision. `EtcdChain` has the transactions of the C#, TypeScript and
Python clients in both storage layouts, the relation between a store and a log, and one lemma per
atomic step. `EtcdRuns` proves the invariant over every interleaving of any number of clients, the
refinement of the abstract log, and that the optional Redis copy is transparent although entries
expire at any moment. `EtcdCluster`, `CSharpChain` and `ScriptChain` are the client objects with
their loops; before every atomic step any run of other clients may happen (`Cluster.Interfere`), so
each contract holds under all interference. `RedisChain`, `RedisClient` and `RedisScriptChain` do the
same for the Lua scripts and the multi-step reads of the Redis chain, `ChainReaders` composes the
reads of both into whole walks along a chain, `BackEnds` compares the two back ends command by
command, and `KeySpace` shows when printed keys of different roles can coincide.

**Shared-memory broadcast.** `BroadcastQueue` models one client's queue with every load and
compare-and-swap of every publisher as a step of its own, and the consumer's check, head swap,
per-item delivery, freeing and reset as further steps. `BroadcastSwaps` says exactly when a head swap
is safe. `BroadcastThreads` holds the publisher's nested loops and the consumer's poll, swap and drain
against that machine. `ClientList` is the list of clients linked by relative offsets, with insertion,
the serving pass and the sweep.

**Keep-alive HTTP client.** `KeepAliveClient` is the two-queue machine with asynchronous connect,
handshake, read and timer operations, reconnects and resends, and the class that implements it.

**RPC correlation.** `ReplyMaps` has the two-way id maps of the socket server and of the Redis and
RabbitMQ clients, and the server's map of reply topics; `RpcCorrelation` runs clients, server threads
and channels together, one step per lock region or publication; `RpcHistory` relates the state after
a run to the run's own requests, replies and clients; `RpcExamples` is one such run.

**Text formats.** `Strings`, `Decimals` and `ConnectionLocator` model the locator parser and printer,
`LocatorMeaning` says what a text means without mentioning the parser, `LocatorErrors` what is wrong
with one, `LocatorParsing` proves that the parser agrees on every text, and `LocatorLoops` holds its
loops. `Base64Url` is the encoding,
`Base64Meaning` the bits and letters it stands for, `AuthToken` the login tokens built from it.

Facts that the models bring out, each stated for all inputs with its exact condition, and shown on a
concrete run or input:

* An append of an empty id leaves a store that is no longer one list exactly when the head key is not
  empty and the cursor is at the tail (`EtcdChain.AppendKeepsChainIff`,
  `EtcdRuns.EmptyIdOnFreshChain`).
* Closing a connection or client also forgets an id of another owner exactly when the closed one had
  registered that id and since then neither went away nor got its final reply
  (`ReplyMaps.RemovedOwnerIsGone`, `ReplyMaps.RepeatedIdIsLost`).
* A locator without properties whose identifier ends in `]` does not survive printing and parsing;
  every other well-formed locator does (`ConnectionLocator.RoundTripIff`,
  `ConnectionLocator.BracketExample`).
* A client that stays attached hears everything published for its request up to the final reply, and
  nothing else: a reply that a slower server thread publishes after the final one is dropped
  (`RpcCorrelation.AttachedClientMissesNothing`, `RpcExamples.LateReplyIsDropped`).
* A head swap is safe in all that follows if and only if no publisher is in the middle of an append
  (`BroadcastSwaps.SwapIsSafeIff`, `BroadcastSwaps.ReachableStraddle`,
  `BroadcastSwaps.StraddledMessageIsHidden`); the other queue theorems assume such swaps.

Assumptions about services: etcd transactions are atomic, and comparing the value of a missing key
fails; Lua scripts are atomic; channels keep their order; payload encodings and JSON round trip;
hashing and password checks are functions.

## Model

| member | source | states |
|---|---|---|
| `AppendLog.AppendKeepsWellFormed` | TMTransportDotNet/EtcdChain.cs:465-567 | an append keeps the abstract sequence head-first and free of repeated ids, and only extends it |
| `EtcdChain.HeadStep` | TMTransportDotNet/EtcdChain.cs:87-185 | the head transaction creates the head exactly when there is none, otherwise changes nothing, and its replies carry the head's stored value |
| `EtcdChain.AppendStep` | TMTransportDotNet/EtcdChain.cs:476-555 | in both layouts and languages the transaction succeeds exactly when the abstract append does; then the store holds the log grown by that one item, otherwise it is unchanged |
| `EtcdChain.HeadWrites` | TMTransportDotNet/EtcdChain.cs:87-132 | a missing head is created blank, or, in C# with inline data, as the pair of the default data and no successor; nothing else changes |
| `EtcdChain.AppendWrites` | node_lib/TMTransport_Chains.ts:339-371 | the values a successful append leaves under the predecessor's and the new item's keys in each layout; all other keys are unchanged, and after a failure everything is |
| `EtcdChain.LinkedStore` | node_lib/TMTransport_Chains.ts:354-371 | relinking the tail, also by rewriting the predecessor's data inline, leaves every other item's data and links as they were |
| `EtcdChain.KeyIsFresh` | TMTransportDotNet/EtcdChain.cs:453-464 | a chain key has version 0 exactly when its id is not on the log, and then has no data key either |
| `EtcdChain.ComparisonsAgree` | node_lib/TMTransport_Chains.ts:339-353 | "value is empty" (C#) and "revision unchanged" (scripts) give the same answer for every cursor without successor: whether it is still the tail |
| `EtcdChain.ReadStep` | TMTransportDotNet/EtcdChain.cs:211-252 | an atomic read of any item on the log succeeds and returns its data, its true successor and a usable revision |
| `EtcdChain.AnyReadStep` | node_lib/TMTransport_Chains.ts:173-211 | whatever an atomic read returns describes a position of the log |
| `EtcdChain.AppendKeepsChainIff` | TMTransportDotNet/EtcdChain.cs:465-567 | after an append of any id the store is still one list from the head key, exactly unless an empty id is appended at the tail of a chain with a non-empty head key |
| `EtcdChain.TrailIsLog` | TMTransportDotNet/EtcdChain.cs:338-384 | following next pointers from a position visits exactly the rest of the log |
| `EtcdChain.RepresentsIsSingleList` | TMTransportDotNet/EtcdChain.cs:87-132 | said of the store alone: pointers from the head key visit every chain key once and end at the only key without successor, and the data keys are exactly the non-head ids |
| `EtcdRuns.StepKeepsInv` | TMTransportDotNet/EtcdChain.cs:65-580 | every atomic step of every client, cache write and cache expiry keeps the invariant: store, cursors handed out, cache entries and owed cache writes all agree with the log, which only grows |
| `EtcdRuns.AppendOutcome` | node_lib/TMTransport_Chains.ts:336-396 | what the appending client learns: success iff it was at the tail and the id is new; the new cursor and the cache entry it owes are true |
| `EtcdRuns.HeadOutcome` | node_lib/TMTransport_Chains.ts:87-149 | either reply branch of the head transaction yields a true cursor at position 0 |
| `EtcdRuns.RunKeepsInv` | TMTransportDotNet/EtcdChain.cs:65-580 | the invariant holds after every run of any number of clients in any mix of languages, and nothing handed out becomes false |
| `EtcdRuns.EveryRunIsSingleList` | TMTransportDotNet/EtcdChain.cs:476-526 | no fork, no cycle, no loss: in every reachable state the store is one list from the head key |
| `EtcdRuns.RunRefinesLog` | TMTransportDotNet/EtcdChain.cs:465-567 | after any run the store holds exactly the log that the abstract commands alone produce |
| `EtcdRuns.RunReportsLog` | TMTransportDotNet/EtcdChain.cs:465-567 | every append in a run reports success exactly when the abstract append at that point does |
| `EtcdRuns.CacheIsTransparent` | TMTransportDotNet/EtcdChain.cs:287-337 | a cached item has the same id, data and successor as an etcd read would give, its successor is not empty, and it is not the tail |
| `EtcdRuns.CacheReadIsPlaced` | TMTransportDotNet/EtcdChain.cs:69-86 | a cursor built from a cache entry describes its position, also when the head's data is replaced by the default |
| `EtcdRuns.ExtraKeepsChain` | TMTransportDotNet/EtcdChain.cs:581-587 | saving extra data stores it under its own key, changes no other key and never disturbs the chain |
| `EtcdRuns.EmptyIdOnFreshChain` | TMTransportDotNet/EtcdChain.cs:465-567 | the concrete run: find the head of an empty store and append an empty id; the transaction succeeds and the store is no longer one list |
| `EtcdCluster.Cluster.Yield` | TMTransportDotNet/EtcdChain.cs:341-363 | between the two requests of one call anything that others do only lets the log, the births and everything issued grow |
| `EtcdCluster.Cluster.Transaction` | TMTransportDotNet/EtcdChain.cs:503-526 | one transaction is one step of the machine, with etcd's reply |
| `EtcdCluster.LoadReplies` | node_lib/TMTransport_Chains.ts:173-191 | the load transaction changes nothing and returns both keys as of one moment |
| `CSharpChain.SharedChain.Head` | TMTransportDotNet/EtcdChain.cs:65-185 | returns a true cursor at position 0 with the caller's data; fails only on an inline layout without default data |
| `CSharpChain.SharedChain.LoadUntil` | TMTransportDotNet/EtcdChain.cs:186-284 | finds every item that was on the log when the call began, and what it returns describes a position |
| `CSharpChain.SharedChain.FetchNext` | TMTransportDotNet/EtcdChain.cs:285-452 | through the cache or etcd, with writers between the reads: moves exactly one position on, or reports a moment at which the position was the tail; never a missing record |
| `CSharpChain.SharedChain.CachedNext` | TMTransportDotNet/EtcdChain.cs:287-337 | both ways through the Redis copy lead to the next position, and the item is exactly the copy's entry for the known successor, or for the one that the current item's entry named at a moment of the call |
| `CSharpChain.SharedChain.Peek` | TMTransportDotNet/EtcdChain.cs:340-349 | rereads the chain key: empty exactly at the tail of that moment's log |
| `CSharpChain.SharedChain.IDIsAlreadyOnChain` | TMTransportDotNet/EtcdChain.cs:453-464 | answers for the log of one moment during the call |
| `CSharpChain.SharedChain.AppendAfter` | TMTransportDotNet/EtcdChain.cs:465-567 | true exactly when the item was appended behind the given tail with a new id at one moment of the call; that log then grew by exactly this item, and the Redis copy shows it if so configured; the error case is exactly a set next id |
| `CSharpChain.SharedChain.DuplicateToRedis` | TMTransportDotNet/EtcdChain.cs:568-580 | the Redis copy gets exactly this entry under the chain key; nothing else changes |
| `CSharpChain.LinkedCannotBeTail` | TMTransportDotNet/EtcdChain.cs:467-470 | refusing a cursor with a successor without asking etcd is what etcd would answer |
| `ScriptChain.SharedChain.Start` | node_lib/TMTransport_Chains.ts:68-149 | afterwards the object sits at position 0 with the caller's default data, unless the Redis copy had an entry for the head at a moment of the call: then revision, data and next id are that entry's |
| `ScriptChain.SharedChain.TryLoadUntil` | node_lib/TMTransport_Chains.ts:151-212 | moves to the id whenever it was on the log; an exception only for the head's own id; otherwise the object stays |
| `ScriptChain.SharedChain.Next` | node_lib/TMTransport_Chains.ts:214-320 | moves exactly one position on, or reports a moment at which it was the tail and stays |
| `ScriptChain.SharedChain.CachedNext` | node_lib/TMTransport_Chains.ts:214-262 | moves exactly when the Redis copy has the successor, known before or read from the copy, and then to that entry |
| `ScriptChain.SharedChain.TryAppend` | node_lib/TMTransport_Chains.ts:329-396 | the catch-up loop ends unless others append forever; failure means the id was taken or the log grew since the last read, which showed the current item as the tail; success means exactly this item was added |
| `ScriptChain.SharedChain.Commit` | python_lib/TMTransport.py:966-1026 | succeeds exactly when no node was added behind the cursor and the id is new; on success the object sits at the new item, and the Redis copy shows the old tail with its successor if so configured |
| `ScriptChain.SharedChain.Append` | node_lib/TMTransport_Chains.ts:398-405 | the retry loop ends with exactly this item appended when only finitely many competing items come and nobody else uses the id |
| `RedisChain.HeadStep` | TMTransportDotNet/RedisChain.cs:48-65 | the head script creates only a missing head and returns its true successor |
| `RedisChain.AppendStep` | TMTransportDotNet/RedisChain.cs:142-167 | the append script returns 1 exactly when the abstract append succeeds, and then the database holds the grown log |
| `RedisChain.RunRefinesLog` | TMTransportDotNet/RedisChain.cs:142-167 | after any run of scripts the database holds the log of the abstract commands |
| `RedisClient.SharedChain.LoadUntil` | TMTransportDotNet/RedisChain.cs:66-94 | the empty id gives the head with the caller's data; any other id gives every item that was on the log when the call began; the successor is the one the log has at the end of the call |
| `RedisClient.SharedChain.ReadBoth` | TMTransportDotNet/RedisChain.cs:72-93 | two separate reads with writers between them return immutable data and the successor that the log has at the end, for every item on the log |
| `RedisClient.SharedChain.FetchNext` | TMTransportDotNet/RedisChain.cs:95-136 | three separate reads move exactly one position on, with the successor of the log at the end, or report a tail; never a missing record |
| `RedisClient.SharedChain.AppendAfter` | TMTransportDotNet/RedisChain.cs:142-167 | true exactly when the log of one moment accepted the item, which is then its only change |
| `RedisScriptChain.ScriptedChain.TryLoadUntil` | node_lib/TMTransport_Chains.ts:490-507 | finds every item that was on the log when the call began |
| `RedisScriptChain.ScriptedChain.Next` | node_lib/TMTransport_Chains.ts:509-537 | moves exactly one position on, or reports a moment at which it was the tail and stays |
| `RedisScriptChain.ScriptedChain.TryAppend` | node_lib/TMTransport_Chains.ts:545-567 | succeeds exactly when the log did not grow since the last read, which showed the current item as the tail, and the id is new |
| `RedisScriptChain.ScriptedChain.Append` | python_lib/TMTransport.py:1165-1170 | the retry loop ends with exactly this item appended, under the same conditions as on etcd |
| `ChainReaders.ReadEtcd` | TMTransportDotNet/EtcdChain.cs:186-452 | `LoadUntil` followed by `FetchNext` until there is no next item returns a contiguous piece of the final log, up to the tail of one moment, whatever others append meanwhile |
| `ChainReaders.ReadRedis` | TMTransportDotNet/RedisChain.cs:66-136 | the same on Redis with its separate reads |
| `BackEnds.EtcdCommandsAreLegal` | TMTransportDotNet/RedisChain.cs:142-167 | every legal etcd run issues commands that are legal on Redis |
| `BackEnds.ReplayAgrees` | TMTransportDotNet/RedisChain.cs:48-65 | replaying an etcd run's commands on an empty Redis gives the same log |
| `BackEnds.AppendsAgree` | TMTransportDotNet/RedisChain.cs:142-167 | on stores that hold the same log, each of the etcd append transactions and the Lua script give the same answer |
| `KeySpace.CollideIff` | TMTransportDotNet/EtcdChain.cs:475-480 | two prefixes can print a common key exactly when one, with its colon, begins the other |
| `KeySpace.RenderInjectiveIff` | TMTransportDotNet/EtcdChain.cs:475-480 | printed keys identify role and id, whatever the ids contain, exactly when the three prefixes are pairwise apart |
| `KeySpace.PrintedKeys` | TMTransportDotNet/EtcdChain.cs:24-33 | the printed keys written out, for the default configuration and for a locator without explicit prefixes |
| `KeySpace.DefaultKeysNeverCollide` | node_lib/TMTransport_Chains.ts:609-613 | the locator's and the default configuration's keys never collide, for every identifier and all ids |
| `BroadcastQueue.StepKeepsInv` | src/shared_memory_broadcast/SharedMemoryBroadcastComponent.cpp:474-507 | every load, compare-and-swap, swap, delivery and free keeps the list acyclic, the shared tail and all local tails on the list (also when the shared tail moves back), and the history exact |
| `BroadcastQueue.StepKeepsNoLeak` | src/shared_memory_broadcast/SharedMemoryBroadcastComponent.cpp:182-208 | every allocated item is on a list or in some publisher's hands, and its message exists exactly until delivery |
| `BroadcastQueue.RunKeepsInv` | src/shared_memory_broadcast/SharedMemoryBroadcastComponent.cpp:474-507 | both hold after every run of any number of publishers and the consumer |
| `BroadcastQueue.EveryRunIsFifo` | src/shared_memory_broadcast/SharedMemoryBroadcastComponent.cpp:136-209 | delivered, cut off and still listed messages together are the linked messages in order; each publisher's own order is kept; no access to freed memory; the idle head is empty at every swap |
| `BroadcastQueue.QuietMeansDelivered` | src/shared_memory_broadcast/SharedMemoryBroadcastComponent.cpp:182-208 | when all is quiet every finished message was delivered and only the two heads are allocated |
| `BroadcastQueue.NextPollFindsDelivered` | src/shared_memory_broadcast/SharedMemoryBroadcastComponent.cpp:136-209 | turn after turn: whatever was linked before a poll is delivered, in order, whenever the consumer polls again, with publishers anywhere in their appends at the poll and during the drain |
| `BroadcastSwaps.StraddlingSwapFaults` | src/shared_memory_broadcast/SharedMemoryBroadcastComponent.cpp:145-155 | from every state in which some publisher is in any phase of an append, behind the head or an item, a swap can be continued to an access to freed memory |
| `BroadcastSwaps.SwapIsSafeIff` | src/shared_memory_broadcast/SharedMemoryBroadcastComponent.cpp:145-208 | all that can follow a swap is free of faults, keeps the order of messages and finds the idle head empty, if and only if no publisher is in the middle of an append at the swap |
| `BroadcastSwaps.ReachableStraddle` | src/shared_memory_broadcast/SharedMemoryBroadcastComponent.cpp:474-507 | a concrete run from the initial state to such a swap |
| `BroadcastSwaps.StraddledMessageIsHidden` | src/shared_memory_broadcast/SharedMemoryBroadcastComponent.cpp:182-208 | a concrete continuation without a fault in which a finished message ends up behind the idle head |
| `BroadcastThreads.OthersRun` | src/shared_memory_broadcast/SharedMemoryBroadcastComponent.cpp:482-507 | whatever the other threads do, a publisher's item, phase and list prefix are untouched |
| `BroadcastThreads.Region.FindEnd` | src/shared_memory_broadcast/SharedMemoryBroadcastComponent.cpp:486-500 | the inner loop ends, at a node without successor, with the publisher about to link its unchanged item there |
| `BroadcastThreads.Region.TryLink` | src/shared_memory_broadcast/SharedMemoryBroadcastComponent.cpp:501-507 | either the item is linked, once, or a competitor linked another one meanwhile |
| `BroadcastThreads.Region.Publish` | src/shared_memory_broadcast/SharedMemoryBroadcastComponent.cpp:474-507 | returns with the message linked exactly once after everything this publisher sent before |
| `BroadcastThreads.Region.Drain` | src/shared_memory_broadcast/SharedMemoryBroadcastComponent.cpp:182-208 | hands over exactly the messages of the cut-off list, in order, frees each item after its delivery and empties the head, while publishers run |
| `BroadcastThreads.Region.Check` | src/shared_memory_broadcast/SharedMemoryBroadcastComponent.cpp:164-167 | the poll, with publishers anywhere: nothing found means that everything linked was delivered |
| `BroadcastThreads.Region.SwapAndDrain` | src/shared_memory_broadcast/SharedMemoryBroadcastComponent.cpp:168-208 | delivers exactly what was linked before the swap, in order, with publishers between all steps of the drain |
| `ClientList.Unlink` | src/shared_memory_broadcast/SharedMemoryBroadcastComponent.cpp:523-543 | the offset sum leads to the true successor, is never 0, and leaves the list without the node between |
| `ClientList.Segment.Insert` | src/shared_memory_broadcast/SharedMemoryBroadcastComponent.cpp:249-272 | a new client becomes the last node and nothing else changes place |
| `ClientList.Segment.Serve` | src/shared_memory_broadcast/SharedMemoryBroadcastComponent.cpp:451-512 | after the first pass a client is active exactly if it was active, has a record and its heartbeat is at most 3000 ms old; exactly the records of active listed clients gain the message at their end |
| `ClientList.Segment.Sweep` | src/shared_memory_broadcast/SharedMemoryBroadcastComponent.cpp:514-560 | the list becomes the old one filtered to active clients, in the same order |
| `ClientList.Segment.Publish` | src/shared_memory_broadcast/SharedMemoryBroadcastComponent.cpp:439-561 | an old node stays, in order, exactly if its client was active, had a record and a heartbeat at most 3000 ms old; exactly the records of the clients still listed gain the message at their end; all heartbeats and other queues stay |
| `ClientList.SweepStep` | src/shared_memory_broadcast/SharedMemoryBroadcastComponent.cpp:522-558 | each round settles one node: kept nodes stay, unlinked ones leave a whole list |
| `KeepAliveClient.StepKeepsInv` | src/json_rest/JsonRESTComponent.cpp:587-862 | every handler keeps each request in one place, one outstanding operation, and a request to send behind every connection attempt |
| `KeepAliveClient.EveryRunConserves` | src/json_rest/JsonRESTComponent.cpp:739-832 | after any run with read errors and reconnects, callbacks fired, requests in process and requests waiting are the submitted sequence, and one operation is outstanding |
| `KeepAliveClient.NoWriteAfterFailure` | src/json_rest/JsonRESTComponent.cpp:739-784 | whatever follows a failed read, nothing is written to the stream it failed on, or an older one |
| `KeepAliveClient.NextOperation` | src/json_rest/JsonRESTComponent.cpp:587-862 | which single operation is outstanding after each completion: connect, handshake, read, timer or, after a read error, a new resolve |
| `KeepAliveClient.ReadKeepsInv` | src/json_rest/JsonRESTComponent.cpp:739-784 | a completed read was for the request in front, as written last on the current stream |
| `KeepAliveClient.CanFinish` | src/json_rest/JsonRESTComponent.cpp:785-832 | from every reachable state of a client not removed, completions alone can fire every callback |
| `KeepAliveClient.SetupHasWork` | src/json_rest/JsonRESTComponent.cpp:662-688 | whenever a connection comes up there is a request to send |
| `KeepAliveClient.OneKeepAliveClient.TakeRequests` | src/json_rest/JsonRESTComponent.cpp:664-669 | the shared loop moves all waiting requests behind those in process, in order |
| `KeepAliveClient.OneKeepAliveClient.OnConnect` | src/json_rest/JsonRESTComponent.cpp:649-698 | is the machine's step; writes exactly the request in front, on a plain connection only; a failure removes the client |
| `KeepAliveClient.OneKeepAliveClient.OnRead` | src/json_rest/JsonRESTComponent.cpp:739-784 | on success calls exactly the callback in front, with its response, and keeps the stream; on an error calls nothing, keeps the requests and takes a new stream |
| `KeepAliveClient.OneKeepAliveClient.CheckAndSend` | src/json_rest/JsonRESTComponent.cpp:785-832 | is the machine's step: takes all waiting requests and writes exactly the request in front, or waits again |
| `ReplyMaps.RunKeepsConsistent` | src/socket_rpc/SocketRPCComponent.cpp:375-389 | any sequence of register, final reply and remove keeps every forward id in its owner's set, without assuming unique ids |
| `ReplyMaps.ListedIffStillHeld` | src/socket_rpc/SocketRPCComponent.cpp:375-389 | in any history an owner's set holds exactly the ids that it registered and has since neither lost by going away nor by a final reply that went to it |
| `ReplyMaps.OwnerIff` | src/socket_rpc/SocketRPCComponent.cpp:375-389 | in any history an id leads to an owner exactly when that owner registered it and since then nobody else did, no final reply came, and no owner that still held it went away |
| `ReplyMaps.RemovedOwnerIsGone` | src/socket_rpc/SocketRPCComponent.cpp:380-389 | after any history no id leads to a removed owner; an id of another owner is forgotten exactly when the removed owner still held a registration of it; all other ids keep their owner |
| `ReplyMaps.RepeatedIdIsLost` | src/socket_rpc/SocketRPCComponent.cpp:375-389 | the concrete case of an id registered by two owners |
| `ReplyMaps.RemoveIsLocal` | src/rabbitmq/RabbitMQComponent.cpp:482-493 | without takeovers the maps are inverse to each other before and after a removal, which forgets exactly the removed owner's ids and changes no other owner or set |
| `ReplyMaps.SocketServer.RemoveConnection` | src/socket_rpc/SocketRPCComponent.cpp:380-389 | the erase loop is the removal of the specification and leaves no id of the connection |
| `ReplyMaps.SocketServer.SendReply` | src/socket_rpc/SocketRPCComponent.cpp:419-432 | replies go to the registered connection; a final one forgets the id on both sides |
| `ReplyMaps.ClientConnection.RemoveClient` | src/redis/RedisComponent.cpp:376-387 | the client is no longer attached and no id leads to it; attached are exactly the clients added and not removed since in the history; the result is their number |
| `ReplyMaps.AttachedIff` | src/redis/RedisComponent.cpp:371-387 | over any history of additions, removals, requests and replies: a number is attached exactly when the addition that gave it out was not followed by its removal |
| `ReplyMaps.ClientConnection.SendRequest` | src/redis/RedisComponent.cpp:405-415 | the id is registered for its client before the request goes out |
| `ReplyMaps.ClientConnection.OnReply` | src/redis/RedisComponent.cpp:310-331 | the callback of the registered, attached client runs, and a final reply forgets the id |
| `ReplyMaps.DestinationIff` | src/redis/RedisComponent.cpp:539-549 | over any history of requests and replies: a reply has a topic exactly while its request is open, and it is the topic that asked last |
| `ReplyMaps.ServerConnection.SendReply` | src/redis/RedisComponent.cpp:539-554 | the lock region yields a topic exactly while the request is open in the history so far, and no reply after a final one gets a topic until the id is requested again |
| `RpcCorrelation.StepKeepsInv` | src/redis/RedisComponent.cpp:310-331 | every lock region and publication keeps routing, the single right to finish, and the order of replies |
| `RpcCorrelation.TokensDoNotGrow` | src/redis/RedisComponent.cpp:539-551 | the right to send a request's final reply is handed from request to server map to thread to publication and never doubled |
| `RpcCorrelation.EveryRunIsSafe` | src/redis/RedisComponent.cpp:310-331 | after any run: callbacks ran for the asking client, deliveries are a prefix of the publications for that id, at most one final reply was published, nothing was delivered after a final one |
| `RpcCorrelation.AttachedClientMissesNothing` | src/rabbitmq/RabbitMQComponent.cpp:376-397 | an attached client with an empty channel heard exactly what was published for its request up to the final reply |
| `RpcHistory.EveryCallbackWasAskedFor` | src/redis/RedisComponent.cpp:310-331 | after any run every callback ran for a client and an id that this client itself sent in the run |
| `RpcHistory.AttachedIffAdded` | src/redis/RedisComponent.cpp:371-387 | after any run the clients of a connection are exactly those that the run added and did not remove |
| `RpcHistory.RepliesConserved` | src/redis/RedisComponent.cpp:539-554 | with any number of threads, each reply was published or is held by a thread exactly as often as it was given to the server while its request was open |
| `RpcHistory.EveryReplyIsPublished` | src/redis/RedisComponent.cpp:539-554 | from the start, once no thread is in between: published exactly as often as accepted |
| `RpcExamples.LateReplyIsDropped` | src/redis/RedisComponent.cpp:539-554 | a concrete run with two server threads in which the final reply is published first and the other one is not heard |
| `Strings.TrimSpec` | src/ConnectionLocator.cpp:12-22 | trimming yields a trimmed part of the text and changes exactly untrimmed texts |
| `Strings.TrimDropsBlanks` | src/ConnectionLocator.cpp:12-22 | the text is its trimmed form between two runs of blanks, and the trimmed form begins and ends without a blank |
| `Strings.LessIff` | src/ConnectionLocator.cpp:153-164 | the order of property names: a proper prefix, or the smaller character at the first difference |
| `Decimals.ParseIntIff` | src/ConnectionLocator.cpp:43-53 | a text is read as a number exactly when it spells that number in decimal digits with an optional sign, and it fits in 32 bits |
| `LocatorParsing.ParsedIff` | src/ConnectionLocator.cpp:10-96 | every text, with any number of fields and properties: parsed to a locator exactly when it means that locator; host, user and identifier are trimmed fields, the password is the raw one, what is absent is empty, an absent or blank port is 0, a property without a value has the empty one |
| `LocatorParsing.ParsedFailsIff` | src/ConnectionLocator.cpp:10-96 | every text: rejected with an error exactly when that is the first thing wrong with it |
| `LocatorParsing.EmptyPort` | src/ConnectionLocator.cpp:40-53 | a concrete text with an empty port means port 0 |
| `LocatorParsing.NameAlone` | src/ConnectionLocator.cpp:69-94 | a concrete text with brackets only and a property without a value |
| `ConnectionLocator.ParsedIsWellFormed` | src/ConnectionLocator.cpp:10-96 | every accepted text gives a well-formed locator |
| `LocatorLoops.Parse` | src/ConnectionLocator.cpp:10-96 | the parser with its loops gives a locator exactly when the text means it, and an error exactly when that is the first thing wrong |
| `LocatorLoops.JoinIdentifier` | src/ConnectionLocator.cpp:29-37 | an identifier with colons is put together again |
| `LocatorLoops.ParseProperties` | src/ConnectionLocator.cpp:69-94 | the property loop gives the map that the definitions mean, or the first bad, reserved or duplicate one |
| `ConnectionLocator.FieldsRoundTrip` | src/ConnectionLocator.cpp:150-152 | the five printed fields are split and converted back |
| `ConnectionLocator.PropertyTextRoundTrip` | src/ConnectionLocator.cpp:153-164 | the printed properties, in any order, parse to the same map |
| `ConnectionLocator.RoundTripIff` | src/ConnectionLocator.cpp:150-166 | parsing the printed form gives the locator back exactly when it is well formed and, without properties, its identifier does not end in a bracket |
| `ConnectionLocator.ParsePrintParse` | src/ConnectionLocator.cpp:10-96 | parse, print, parse equals parse for every accepted text, under the same exact condition |
| `LocatorLoops.ToSerializationFormat` | src/ConnectionLocator.cpp:150-166 | prints the properties by ascending name, and its text parses back under the exact condition |
| `Base64Url.BytesOfSextets` | src/json_rest/JsonRESTComponent.cpp:2003-2007 | regrouping bytes into six-bit groups loses nothing, for every length |
| `Base64Url.RoundTrip` | src/json_rest/JsonRESTComponent.cpp:2003-2039 | decoding the encoding gives back every byte string |
| `Base64Url.EncodingIsInjective` | src/json_rest/JsonRESTComponent.cpp:2003-2022 | different byte strings have different encodings |
| `Base64Url.EncodingHasNoDot` | src/json_rest/JsonRESTComponent.cpp:2003-2022 | the encoding contains no dot and no padding |
| `Base64Url.Base64URLEnc` | src/json_rest/JsonRESTComponent.cpp:2003-2022 | editing and stripping plain base64 gives the unpadded url encoding |
| `Base64Url.Base64URLDec` | src/json_rest/JsonRESTComponent.cpp:2023-2039 | editing and padding the text before plain decoding is url decoding, and undoes every encoding |
| `Base64Meaning.AlphabetsAre` | src/json_rest/JsonRESTComponent.cpp:2003-2039 | the 64 letters of both alphabets in order |
| `Base64Meaning.EncodingMeans` | src/json_rest/JsonRESTComponent.cpp:2003-2022 | every three bytes and their four letters are the same 24 bits, a rest of one or two bytes is filled up with zero bits, and the length is exact |
| `Base64Meaning.DecodingMeans` | src/json_rest/JsonRESTComponent.cpp:2023-2039 | a text of letters, whatever follows the first other character, decodes to the same bits, with the bits of no whole byte dropped |
| `AuthToken.TokenSplits` | src/json_rest/JsonRESTComponent.cpp:2184-2188 | a created token splits into exactly its three parts |
| `AuthToken.FrontPartIsInjective` | src/json_rest/JsonRESTComponent.cpp:2095-2098 | the hashed text determines header and payload |
| `AuthToken.HexIs` | src/json_rest/JsonRESTComponent.cpp:2107-2114 | two capital hexadecimal digits for each byte, the higher one first |
| `AuthToken.AcceptedIff` | src/json_rest/JsonRESTComponent.cpp:2171-2236 | every text: accepted for a login exactly when it is two dot-free parts and a third that begins with their keyed hash in hexadecimal, and the second decodes to an unexpired payload of that login |
| `AuthToken.MadeIff` | src/json_rest/JsonRESTComponent.cpp:2089-2115 | the token made: encoded header, encoded payload with an expiration one hour ahead, and the hash of both in hexadecimal |
| `AuthToken.TokenAcceptedIff` | src/json_rest/JsonRESTComponent.cpp:2171-2236 | a created token is accepted under a secret exactly while not expired and hashed alike, and stands for its login |
| `AuthToken.TokenRoundTrip` | src/json_rest/JsonRESTComponent.cpp:2089-2115 | on its own port a token works exactly until it expires |
| `AuthToken.CountDiffs` | src/json_rest/JsonRESTComponent.cpp:2206-2218 | the comparison that never stops early finds no difference exactly for a prefix |
| `AuthToken.TokenAuthority.AddTokenAuthentication` | src/json_rest/JsonRESTComponent.cpp:1916-1931 | adding a login never changes the secret of a port, so issued tokens stay valid; afterwards the user is known with that password; if hashing fails no login changes but the port exists |
| `AuthToken.TokenAuthority.AddTokenAuthenticationSalted` | src/json_rest/JsonRESTComponent.cpp:1932-1939 | the same for a password hashed before |
| `AuthToken.TokenAuthority.CreateAuthToken` | src/json_rest/JsonRESTComponent.cpp:2040-2119 | a token is made only for known users whose password verifies; for those it is the specified one, missing exactly when the payload cannot be written or the front part cannot be hashed, and accepted exactly until it expires |
| `AuthToken.TokenAuthority.CheckTokenAuthentication` | src/json_rest/JsonRESTComponent.cpp:2171-2240 | gives a login exactly when the text carries the keyed hash and an unexpired payload of that login under the port's secret, and none for an unknown port |

## Left out

- Sockets, AMQP, hiredis, gRPC, UDP, Boost.Asio, TLS, curl and thread handles: input and output; their atomic steps and lock regions are the steps of the models.
- CBOR and JSON text, hashing, password checks, UUIDs: values, constructors or function parameters that round trip; a stored value that does not decode is one built by another constructor.
- Mixed languages on one inline chain: C# creates the head as an encoded pair and the scripts create it blank, so each client class requires the head of its own language (`Valid`, `Ready`).
- Ids already on the chain: `append` would retry forever, so the retry loops require a new id that no other client uses; `tryAppend` and `AppendAfter` take any non-empty id.
- Chain keys removed from outside, and `DuplicateToRedis` called by users with data of their own.
- Retry loops: they are proved to end against a finite but arbitrary number of competing steps (`future`), as nothing ends them otherwise.
- Cache lifetime in seconds: an entry may expire at any moment.
- `IDIsAlreadyOnChain` and extra data on Redis, `close`, `currentValue`: easy members.
- Publishers that straddle a consumer head swap: outside what the code supports; `BroadcastSwaps` proves that no such swap is safe.
- Concurrent changes of the client list during a sweep, `releaseClientData`'s own walk over the queue, the subscription's destructor.
- Topic filters and hooks behind a delivery: a delivery attempt is one step.
- Keep-alive client: HTTP parsing, headers and URLs, write exceptions, shutdown, logging, TLS settings; a failed connection setup removes the client, as in the code, and its requests end there.
- RPC: hooks that reject a payload, wrap-around of the 32-bit client counter, lost replies; requests may be lost.
- Locators: `query`, the copy functions, comparison, `toPrintFormat`, locales other than the classic one, and the error message texts.
- Tokens: the shape of the request and payload JSON, the HTTP answers and the thread that serves them.
- Subscription registries, importer, exporter and facility wrappers, heartbeat and alert messages, and the .NET connection reference counts: plumbing or easy members.
