# fcore, modelled and verified in Dafny

fcore is the control plane of a fleet of proxy nodes. An API process keeps connections in a PostgreSQL table and in a
cache, and publishes Create, Update and Delete messages; node and auth processes fold these messages into their own
state and into their backends (Xray users, WireGuard peers). Around this core the repository has activation codes,
WireGuard address allocation, subscription expiry and an indexed metric store. This project models those parts and
proves what they promise, over all inputs and all runs. `dafny verify dfyconfig.toml` checks everything.

## What is modelled, and what is found

**Replication.** `ControlPlane` is the API as a state machine over table, cache and published log. Its steps are create,
delete, restore and reload from the database; every database call can be carried out, refused, or carried out with its
reply lost, and every publish can fail. `Replicas` and `Nodes` give the effect of a message on auth and on a node;
`Convergence`, `NodeConvergence`, `BatchConfluence`, `Duplicates`, `SnapshotSync`, `NodeRestart`, `WholeRestart` and
`FirstStart` relate the two sides over whole runs.
- Memory ids are a subset of table ids after every run, whatever fails, and every cached connection is as its row reads
  back (`ReadsBackExact`): with the same fields, except that the table lower-cases environment names. Deletion marks
  agree with exactly one exception: a restoration whose database reply is lost leaves the cache claiming a deletion that
  the table no longer records, until a later restoration or reload (`AgreementExact`, `AgreementOverRuns`,
  equivalences).
- A converged replica stays converged exactly through the steps named by `Convergence.Safe`: a creation breaks it only
  by an announcement that is lost or not heard, a restoration only by a database failure after its announcement or by
  one that is not heard, a reload only when table and cache differ in what the replica should hold; a deletion never
  does (`ConvergenceExact`, an equivalence). Over whole runs with any failures and any environment names it is known
  exactly for which connections a replica ends up wrong, and so which later deletions, restorations and reloads set it
  right again (`ConvergenceOverRuns`, an equivalence).
- Environment names that are not lower case, which the API accepts, reach no node: the subscription matches the topic's
  bytes, and the reload that lower-cases the name announces nothing. A node can so lack a live connection of its
  environment although nothing failed (`MixedCaseMissed`). Auth is not affected.
- Without failures, auth accepts a token exactly when the API holds a live connection with it (`TokenConvergence`), and
  a node's memory, users and peers are exactly the live connections it serves when all names are lower case; users and
  peers are those of its memory after every run, whatever failed (`BackendsConverge`).
- A batch handled concurrently ends as handled one by one, for every interleaving, if it names each connection and each
  key once and no call is refused; `RefusedEnds` says where a refusal can leave the node. Two messages about one
  connection end so, in outcome and in the state left behind, exactly if one is ResetStat, both are deletions that are
  carried out, or both do the same without adding an Xray user (`SameConnectionExact`).
- A node built with WireGuard but without its client records connections and can never forget them
  (`MissingClientDiverges`).
- After a restart auth lacks a live connection exactly if it did not hold it at the snapshot and the history of the
  run, with whatever failures, leaves its modification time before that second (`RestartedExact`, `SnapshotPlusDelta`).
  A restoration does not touch the row's time, so a reload hides it (`RestoreLost`); so does a reload that brings up a
  connection whose creation lost its reply before the snapshot (`LostCreationMissed`).
- A restarted node gets every live connection that it serves, whatever the schedule and whatever failed, exactly if for
  each protocol none is missed in this way and of the connections sent to it either none or all were held at the
  snapshot: one that was is refused when it is sent again, and the refusal ends that protocol's batch
  (`WholeRestartExact`, `NodeSnapshotPlusDelta`, `ResentRefused`).
- A replica that starts without a snapshot asks for everything and then holds exactly the live connections meant for it,
  a node with exactly their users and peers, after every run, whatever failed and whatever the schedule
  (`AuthFirstStart`, `NodeFirstStart`).
- A background pass without failures keeps a converged replica converged exactly unless it restores a connection of
  which that cannot hear (`PassKeepsConverged`). The passes settle every connection except those past their own expiry
  under an active subscription, which are deleted and restored forever (`PassesReachFixedPoint`, an equivalence, and
  `ExpiredFlaps`).

**Metric storage.** Index, descriptions and series keys stay consistent through every mix of insertions and collections,
even when series hashes collide; indexed reads answer as a naive scan does, with exactly the points of a matching series
between the bounds; collection cannot be seen by reads inside the retention window. Every series is a suffix of what was
inserted into it. With insertions in order it is throughout the newest points above the highest cutoff exactly if no
point arrives that is older than a cutoff already applied (`SeriesExact`); such a point is kept although it should not
be (`LatePointKept`).

**Activation codes.** A text is accepted exactly if its letters spell a payload that was made with the same secret, and
reads as that payload's days and distributor, whatever the case and the dashes (`ParseExact`, `CodeRoundTrip`); a code
made with another secret passes only if the truncated signatures agree (`ForeignSecret`). Changing any of the first 25
letters to another letter is always detected by the checksum alone. The 26th letter is protected exactly in its upper
three bits: the repository's own tampering test (src/memory/key.rs:251-260), which overtypes the last character with
'X', holds exactly for the codes that do not end in 'U' (`TamperedCodeAccepted`, `TamperedCodeExample`).

**Addresses.** Mask, broadcast, membership and the scan's netmask describe the same interval. The API-side allocator
gives every connection ever created its own address, consecutively, up to an exact capacity, exactly if every WireGuard
creation whose database reply is lost is followed by a reload before the next one is stored (`FreshAddresses`,
`LostCreationCollides`). The node-side scan finds the least address of the range it visits that is neither the
interface's own nor a peer's, which ends one short of the last usable host (`LastHostUsable`); it overflows for prefix
length 0.

**Subscription time.** The stored and the cached expiry never drift apart by more than the larger of the initial gap and
the largest single clock gap, when each call adds at least a day. For any other number of days `DriftExact` says exactly
when the bound survives; a failed write breaks it until a reload or a late enough call (`FailedWriteRunsAhead`). A
subscription is active until its expiry is reached, adding a day or more makes it active again (`DaysActivate`), and
the passes act on connections exactly by these fields (`TargetsExact`).

The operations that the source writes as updates in place are classes and methods with loops (`MemSync.Sync`,
`ReplicaServices.AuthService`, `ReplicaServices.NodeService`, `MetricStorage.Storage`, `ConnectionHandler`, `FirstFit`,
`Codes.NewCode`), each proved to compute the function about which the theorems speak.

## Assumptions

- Each API operation, each insertion and each garbage collection is one atomic step; runs are serial. The source
  releases its locks in between. The published log is first-in first-out, one message an entry.
- A step's clock readings, random material and failures are parameters. Maps are walked in an arbitrary order.
- The series hash, HMAC and public-key derivation are arbitrary functions. Time is in microseconds, the precision of the
  table's timestamps; metric values are reals.
- Configuring a WireGuard peer that is already there sets its address; the handlers of messages ask first.
- Operations are called with a copy of the cached connection, as all their callers do.
- Created connections are as the handlers build them: not deleted, an Xray value with an Xray or Mtproto tag, a
  WireGuard key that decodes and a prefix length of at most 32. New WireGuard keys are distinct. Environment names are
  arbitrary.
- Prefix lengths are at most 32 where the source has already parsed or configured them; `FirstFit.NextAvailable`, which
  does not depend on parsing, handles all of them.

## Model

| member | source | states |
|---|---|---|
| Text.CaseExact | src/memory/key.rs:86-97 | two texts have the same upper-case and the same lower-case form exactly if one is a re-casing of the other |
| Topics.EnvLowered | src/memory/env.rs:44-76 | parsing a printed environment gives it back with its custom name lower-cased |
| Topics.EnvRoundTrip | src/memory/env.rs:44-87 | parse undoes print exactly for lower-case names, in the strict and in the lossy conversion |
| Topics.UuidRoundTrip | src/zmq/topic.rs:47-51 | the hyphenated form of a UUID is lower case and reads back as the same UUID |
| Topics.TopicRoundTrip | src/zmq/topic.rs:16-55 | parse undoes print exactly for topics whose environment name is lower case, and what it gives otherwise |
| Topics.EnvExact | src/memory/env.rs:59-77 | the texts that are read as an environment, in any case: its printed form, and the aliases exp, prod and development |
| Topics.EnvDefault | src/memory/env.rs:59-88 | a text that spells no environment is taken for the experimental one, and every other as it spells |
| Topics.UuidExact | src/zmq/topic.rs:47-51 | a UUID is read exactly from its plain and its hyphenated digits, in any case |
| Topics.TopicExact | src/zmq/topic.rs:29-55 | the texts that are read as a topic, for each topic |
| Topics.NodeDeliveryExact | src/bin/node/tasks.rs:45-77 | over prefix subscriptions a node handles exactly its own Init and its own environment's Updates, the latter only with a lower-case name |
| Topics.AuthDeliveryExact | src/bin/auth/tasks.rs:34-69 | auth handles exactly the Auth topic and its own Init |
| Topics.CaseTwinNotDelivered | src/zmq/subscriber.rs:27-31 | a topic that would parse to the node's environment only by lower-casing never passes the prefix match |
| Topics.PrefixOverDelivers | src/zmq/subscriber.rs:27-31 | the prefix match alone delivers another environment's updates, which the handler then drops |
| Base32.DecodeEncode | src/memory/key.rs:121-135 | base-32 decoding undoes unpadded encoding for byte strings of every length, and the length of the text |
| Codes.NewCode | src/memory/key.rs:107-127 | the step-by-step construction yields the text of payload, truncated signature and checksum |
| Codes.ChecksumFrom | src/memory/key.rs:166-168 | the wrapping fold equals the plain sum modulo 256 |
| Codes.ReadPayload | src/memory/key.rs:129-158 | the 16 bytes of a new code read as its days and distributor, for every i16 and signature function |
| Codes.ReadExact | src/memory/key.rs:129-158 | sixteen bytes read as these days and distributor exactly if they are a payload made with the same secret |
| Codes.ParseExact | src/memory/key.rs:129-192 | an arbitrary text parses and validates to these days and distributor exactly if its letters spell such a payload |
| Codes.AcceptedExact | src/memory/key.rs:129-153 | a text is accepted exactly if it spells sixteen bytes, the last the sum of the others modulo 256, the three before it the start of the signature of the first twelve |
| Codes.ForeignSecret | src/memory/key.rs:149-152 | a code made with one secret is accepted under another exactly if the first three bytes of the two signatures agree |
| Codes.CodeTextShape | src/memory/key.rs:170-177 | 26 letters in six dash-separated groups, dashes exactly at every sixth place, spelling the payload |
| Codes.SameLetters | src/memory/key.rs:83-98 | parse, from_str and validate depend on the letters only, not on case or dashes |
| Codes.CodeRoundTrip | src/memory/key.rs:83-192 | a text with the letters of a new code, each in either case, and any dashes passes from_str and validates to its days and distributor |
| CodeErrors.NoCancellation | src/memory/key.rs:166-168 | overwriting five consecutive bits, across bytes too, changes the checksum balance modulo 256 unless they are the same bits |
| CodeErrors.BalanceIsChecksum | src/memory/key.rs:132-145 | 26 or 27 letters spell 16 bytes whose checksum holds exactly when the bit balance is a multiple of 256 |
| CodeErrors.FromStrExact | src/memory/key.rs:83-98 | from_str accepts exactly the texts of 26 or 27 letters of the alphabet, case and dashes aside, and keeps them in upper case |
| CodeErrors.LetterChangeDetected | src/memory/key.rs:129-168 | replacing any of the first 25 letter values breaks a valid checksum |
| CodeErrors.SingleLetterErrorDetected | src/memory/key.rs:129-158 | overtyping one of the first 25 letters of an accepted text by any other ASCII character but the padding sign makes parse return None |
| CodeErrors.PrintedCodeErrorDetected | src/memory/key.rs:129-168 | the same for every position of a printed code before its last character |
| CodeErrors.LastLetterExact | src/memory/key.rs:129-158 | a replaced 26th letter is accepted, with the same meaning, exactly if it shares the upper three bits |
| CodeErrors.LastLetterOfCode | src/memory/key.rs:118-126 | the last letter shows the low three bits of the checksum |
| CodeErrors.TamperingMissed | src/memory/key.rs:251-260 | overtyping a final U by X changes nothing, for every accepted text of 26 letters |
| CodeErrors.TamperedCodeAccepted | src/memory/key.rs:251-260 | the test's tampering of a printed code is accepted, with the same meaning, exactly if the checksum is 5 modulo 8, that is if the code ends in U |
| CodeErrors.TamperedCodeExample | src/memory/key.rs:107-127 | a concrete payload of that kind |
| Ipv4.AndMask | src/memory/connection/wireguard.rs:155-174 | masking an address yields the lowest address of its block |
| Ipv4.OrHostBits | src/memory/connection/wireguard.rs:132-152 | broadcast yields the highest address of the block |
| Ipv4.ContainsInterval | src/memory/connection/wireguard.rs:115-128 | contains_ipv4 holds exactly for the addresses between the two |
| Ipv4.SameInterval | src/memory/connection/wireguard.rs:115-174 | membership, mask, broadcast and the scan's netmask describe one interval |
| IpText.IpRoundTrip | src/memory/connection/wireguard.rs:195-235 | dotted-decimal printing reads back as the same address |
| IpText.IpExact | src/memory/connection/wireguard.rs:215-231 | a text is read as an address only if it is the printed address |
| IpText.MaskRoundTrip | src/memory/connection/wireguard.rs:195-235 | address and prefix length read back exactly for prefix lengths up to 32, and are refused above |
| IpText.ByteExact | src/memory/connection/wireguard.rs:217-217 | a prefix length is read from its digits with any leading zeros and an optional plus sign, and from nothing else |
| IpText.MaskExact | src/memory/connection/wireguard.rs:212-234 | a text is read as address and prefix length exactly if it is the address alone, for 32, or the address, a slash and a spelling of a length of at most 32 |
| FirstFit.ScanBounds | src/proto/wireguard.rs:118-122 | the scan's mask arithmetic yields the ends of the block, and when its bounds overflow |
| FirstFit.Scan | src/proto/wireguard.rs:140-150 | the loop finds the least unused address of its range, or every address is used |
| FirstFit.NextAvailable | src/proto/wireguard.rs:105-151 | the least address in [network+1, broadcast-2] that is neither the interface's own nor a peer's single host, never broadcast-1; none exactly if all are taken; exactly when it overflows; success whenever fewer than 2^(32-cidr)-3 addresses are used |
| FirstFit.EnoughRoom | src/proto/wireguard.rs:105-151 | the pigeonhole argument behind that success |
| FirstFit.LastHostUsable | src/memory/connection/wireguard.rs:115-152 | the address below broadcast, which the scan never returns, is a host of the network |
| Connections.RowReads | src/bin/api/postgres/connection.rs:29-88 | a row reads back as its connection, Mtproto secret aside, exactly for lower-case environments and storable protocols |
| Connections.RowReadsAs | src/bin/api/postgres/connection.rs:29-88 | for any environment name, a row reads back exactly for storable protocols, and then as the connection with its name lower-cased and without an Mtproto secret |
| Connections.RowExact | src/bin/api/postgres/connection.rs:29-88 | which rows can be read at all, and as which connection: the columns of the protocol are there and spell its value |
| Connections.RowRoundTrip | src/bin/api/postgres/connection.rs:29-88 | a connection survives the table unchanged exactly if it is such a one and not Mtproto |
| Connections.RowOkExact | src/bin/api/postgres/connection.rs:29-88 | a written row is stable under reading and writing again exactly for such connections |
| ControlPlane.AgreementExact | src/bin/api/sync/tasks.rs:183-301 | cache and table stay in agreement through a step exactly if it is not a restoration of a deleted connection with a lost reply, nor stores an unstorable connection |
| ControlPlane.AgreementOverRuns | src/bin/api/sync/tasks.rs:183-423 | after any run from the empty system, whatever failed, cache and table agree exactly if only storable connections were stored and every lost restoration was made up for by a later restoration or reload |
| ControlPlane.FieldsExact | src/bin/api/sync/tasks.rs:183-301 | whatever fails in a step, every cached connection keeps a row with the same stored fields, exactly unless an unstorable connection is stored |
| ControlPlane.FieldsOverRuns | src/bin/api/sync/tasks.rs:183-423 | the same over whole runs, as an equivalence |
| ControlPlane.ReadsBackExact | src/bin/api/sync/tasks.rs:183-423 | whatever fails in a step and whatever the environment names, every cached connection stays as its row reads back, exactly unless an unstorable protocol is stored |
| ControlPlane.MarksExact | src/bin/api/sync/tasks.rs:386-423 | deleted-in-memory implies deleted-in-table stays true through a step exactly if it is not a lost restoration |
| ControlPlane.MarksOverRuns | src/bin/api/sync/tasks.rs:386-423 | which connections the cache is ahead of the table on, read off the history of any run |
| ControlPlane.ReloadAgrees | src/bin/api/tasks.rs:174-200 | a successful reload gives the cache the table's connections, fields and marks, and so heals a lost restoration |
| ControlPlane.CachedHaveRows | src/bin/api/sync/tasks.rs:183-423 | memory ids are a subset of table ids after every run, without any condition |
| ControlPlane.RowsStable | src/bin/api/postgres/connection.rs:168-250 | no run removes a row or changes more of it than its deletion mark |
| ControlPlane.AlreadyExistUnreachable | src/bin/api/sync/tasks.rs:193-216 | after every run, whatever failed, an insert that succeeds finds the connection not cached yet and adds it |
| ControlPlane.RowMatch | src/bin/api/tasks.rs:174-200 | an agreeing row reads back as the cached connection up to mark and modification time |
| ControlPlane.MirrorStep | src/bin/api/sync/tasks.rs:237-423 | without failures cache and table keep the same connections, fields and deletion marks |
| Replicas.WireRoundTrip | src/memory/connection/operation/api.rs:34-98 | for any environment name, a replica rebuilds exactly the API's protocol, expiry and subscription, for exactly the connections meant for it |
| Replicas.ReceivesExact | src/bin/api/sync/tasks.rs:262-282 | auth receives exactly the topics of token connections; a node exactly those of the other connections of its own environment, if that name is lower case |
| Replicas.DeleteTakesEffect | src/bin/node/tasks.rs:251-308 | a received deletion takes effect exactly on the replicas that hold the connection |
| Convergence.ConvergenceExact | src/bin/api/sync/tasks.rs:183-423 | after any history, a converged replica stays converged through a step exactly if that is Safe: no creation whose announcement is lost or not heard, no restoration announced and then not carried out or not heard, no reload of a table that differs in what the replica should hold |
| Convergence.OffStep | src/bin/api/sync/tasks.rs:183-423 | for each connection, how each step with each failure sets the replica off or right again, after any history and for any environment name |
| Convergence.OffOverRuns | src/bin/api/sync/tasks.rs:183-423 | whether the replica holds a connection wrongly after a run, read off the history of the run |
| Convergence.ConvergenceOverRuns | src/bin/api/sync/tasks.rs:183-423 | after every legal run from the empty system, whatever failed and whatever the environment names, a replica is converged exactly if its history leaves it off for no connection |
| Convergence.FaultFreeConvergence | src/bin/auth/tasks.rs:97-135 | after any run without failures the applied log equals the API's live connections meant for the replica: for auth always, for a node if all created connections have lower-case names |
| Convergence.MixedCaseMissed | src/memory/env.rs:7-87 | a run without failures, a creation under a name that is not lower case and a reload, after which the node of the lower-cased name lacks a live connection |
| Convergence.ValidateToken | src/memory/storage/connection.rs:49-58 | a connection with the token, if and only if there is one |
| Convergence.TokenConvergence | src/bin/auth/tasks.rs:97-135 | after any run without failures, whatever the environment names, validate_token succeeds at auth exactly when the API holds a live Hysteria2 connection with the token |
| Nodes.HandleRefinesEffect | src/bin/node/tasks.rs:119-308 | handling a message step by step has the specified effect on memory and keeps users and peers exactly those of memory |
| Nodes.MissingClientDiverges | src/bin/node/tasks.rs:127-171 | without its WireGuard client a node records a connection that has no peer and that no deletion removes |
| NodeConvergence.FollowsOverRuns | src/bin/node/tasks.rs:119-308 | over every legal run, whatever fails, the node handles the log to the memory that the convergence theorems are about, and its users and peers are exactly those of it |
| NodeConvergence.BackendsConverge | src/bin/node/tasks.rs:119-308 | from the empty system and with any failures, users and peers are exactly those of memory, and memory equals the API's live connections it serves exactly if its history leaves it off for none; always without failures and with lower-case names |
| BatchConfluence.Commute | src/bin/node/tasks.rs:119-308 | steps on different connections and keys commute, refusals included |
| BatchConfluence.InterleavingsAgree | src/bin/node/tasks.rs:106-117 | every interleaving of pairwise separate programs ends as running them in order, in success and in failure |
| BatchConfluence.HandledAsOneByOne | src/bin/node/tasks.rs:106-117 | a batch with distinct connections and keys ends, however scheduled, as handled one by one |
| BatchConfluence.DuplicateDiverges | src/bin/node/tasks.rs:106-117 | creation and deletion of one connection in a batch can leave a user behind that memory does not know |
| Duplicates.SameConnectionExact | src/bin/node/tasks.rs:106-117 | two messages about one connection end, for every schedule and node state, in the outcome and the state of one handled after the other, exactly if one is ResetStat, both are deletions that are carried out, or both run the same program without an Xray user |
| BatchConfluence.RefusedEnds | src/bin/node/tasks.rs:106-117 | the states in which a batch with a refused call can end, exactly: each message handled in order up to somewhere, one up to a refused call |
| BatchConfluence.RefusalRaces | src/bin/node/tasks.rs:106-117 | so whether another connection of the batch is added depends on the schedule |
| NodeRestart.RebuildExact | src/bin/node/snapshot.rs:38-126 | what putting any snapshot back leaves in the backends, in any order, and that these follow the memory exactly if every connection belongs to a backend, every WireGuard key decodes and no two are the same |
| NodeRestart.SnapshotRebuilds | src/bin/node/snapshot.rs:38-126 | putting the snapshot's connections back, in any order, brings back exactly the users and peers that the node had |
| NodeRestart.ReplyExact | src/bin/node/tasks.rs:106-117 | handling a sync reply brings every sent connection, whatever the schedule, exactly if the node holds none of them before or all |
| NodeRestart.NodeRestartExact | src/bin/node/node.rs:291-310 | for one protocol's reply, whatever failed at the API and whatever other replies left behind: the node gets every live connection exactly if none is missed and of those sent none or all were held at the snapshot |
| NodeRestart.OneReplyExact | src/bin/node/node.rs:291-310 | the same for a node that has followed any run from the empty system up to its snapshot |
| WholeRestart.WholeRestartExact | src/bin/node/node.rs:291-310 | for the whole sequence of requests, one per protocol, each batch scheduled anyhow, whatever failed at the API: the node gets every live connection of these protocols exactly if that condition holds for each |
| WholeRestart.CoveredComplete | src/bin/node/node.rs:291-310 | when the requests cover the protocols that the node serves, this means every live connection meant for the node |
| WholeRestart.ReplyKeepsAwaiting | src/bin/node/tasks.rs:106-117 | a batch of one protocol, cut short or not, leaves memory and backend of the others as they were |
| WholeRestart.NodeSnapshotPlusDelta | src/bin/node/node.rs:202-310 | from the empty system with any failures, through the node's own log, snapshot and rebuilt backends: it gets every live connection meant for it exactly if that condition holds for each protocol that it serves |
| NodeRestart.ResentRefused | src/bin/node/node.rs:291-310 | a concrete run in which a connection created in the snapshot's second is sent again and can keep another one out |
| SnapshotSync.ReplyAdds | src/bin/api/http/handlers/connection.rs:51-77 | a sync reply adds exactly the sent connections that the memory lacks and replaces nothing |
| SnapshotSync.SentExact | src/bin/api/http/handlers/connection.rs:51-63 | whatever failed, a cached connection passes the second-wise comparison exactly if its history since the snapshot says so: a carried-out change sets its time anew, a reload sets it back to its row's |
| SnapshotSync.SecondsExact | src/bin/api/http/handlers/connection.rs:58-58 | comparing whole seconds sends what was modified from the first microsecond of the snapshot's second on |
| SnapshotSync.NothingMissed | src/bin/api/sync/tasks.rs:183-423 | without failures a live connection that auth did not hold at the snapshot counts as modified since, unless a reload follows a restoration |
| SnapshotSync.RestartedExact | src/memory/snapshot.rs:88-126 | for every legal run with any failures before and since, auth holds after snapshot and reply exactly what it held at the snapshot and the live connections that count as modified since, with the API's values |
| SnapshotSync.SnapshotPlusDelta | src/memory/snapshot.rs:88-126 | the same from the empty system; nothing is missing when nothing failed and no reload follows a restoration |
| SnapshotSync.ReloadHidesRestore | src/bin/api/sync/tasks.rs:386-423 | a connection deleted at the snapshot, restored and then reloaded is live at the API and missing at auth |
| SnapshotSync.RestoreLost | src/bin/api/sync/tasks.rs:386-423 | a concrete legal run without failures from the empty system after which the reply and auth's memory are empty while the connection is live |
| SnapshotSync.LostCreationMissed | src/bin/api/sync/tasks.rs:183-234 | a concrete run in which a creation loses its reply before the snapshot, a later reload brings the connection up, and auth is not sent it |
| FirstStart.AuthFirstStart | src/bin/auth/service.rs:115-210 | without a snapshot, after any run with any failures, the reply leaves auth with exactly the live token connections, whatever their environment |
| FirstStart.NodeFirstStart | src/bin/node/node.rs:202-310 | without a snapshot, after any run with any failures and for every schedule, the replies leave a node with exactly the live connections meant for it and exactly their users and peers |
| Metrics.InsertInv | src/metrics/storage.rs:99-136 | an insertion keeps index, descriptions and series keys exact |
| Metrics.CollectInv | src/metrics/storage.rs:208-247 | a collection keeps them exact and leaves no empty index entries |
| Metrics.IndexInvariant | src/metrics/storage.rs:99-247 | they are exact after every run of insertions and collections, hash collisions included |
| Metrics.CollectInvisible | src/metrics/storage.rs:150-247 | for reads that start inside the retention window a collection changes no range and no answer |
| Metrics.RangeExact | src/metrics/storage.rs:150-169 | a range holds exactly the points of the series between the bounds, both included, each as often as the series |
| Metrics.RangeConcat | src/metrics/storage.rs:150-169 | and in the series' order: it distributes over concatenation, and keeps a single point or drops it |
| MetricHistory.SeriesIsSuffix | src/metrics/storage.rs:114-135 | in every run a series is a contiguous suffix of its history, of length at most max_points |
| MetricHistory.PushExact | src/metrics/storage.rs:114-135 | an in-order insertion meets the specification exactly unless the point is older than a cutoff already applied |
| MetricHistory.SeriesExact | src/metrics/storage.rs:208-226 | in every run with in-order insertions, a series is throughout the newest max_points of its points at or above the highest cutoff so far, exactly if no point arrives older than a cutoff already applied |
| MetricHistory.LatePointKept | src/metrics/storage.rs:114-135 | a run of the store, a collection and then such a point, after which the series holds what its specification excludes |
| MetricStorage.PopExcess | src/metrics/storage.rs:122-124 | popping while too long keeps the newest points |
| MetricStorage.PopOld | src/metrics/storage.rs:126-135 | popping while too old drops the old prefix |
| MetricStorage.RetainNodes | src/metrics/storage.rs:213-226 | the in-place retain over nodes and series yields the collected series |
| MetricStorage.RetainIndex | src/metrics/storage.rs:238-246 | the in-place retain over the index yields the collected index |
| MetricStorage.AliveSeries | src/metrics/storage.rs:228-233 | the union of the series keys held by all nodes |
| MetricStorage.FileTags | src/metrics/storage.rs:102-112 | filing tag by tag puts the series under each of its tags and changes nothing else |
| MetricStorage.Storage.InsertEnvelope | src/metrics/storage.rs:99-136 | the object's new state is the specified insertion and keeps the invariant |
| MetricStorage.Storage.PerformGc | src/metrics/storage.rs:208-247 | the object's new state is the specified collection and keeps the invariant |
| MetricStorage.Storage.FindSeriesByTag | src/metrics/storage.rs:171-176 | exactly the described series that carry the tag |
| MetricStorage.Storage.ReadNode | src/metrics/storage.rs:190-205 | finds a node's series exactly if one of the name and tag has a point between the bounds, and returns exactly such points of one such series |
| MetricStorage.Storage.GetAggregatedRange | src/metrics/storage.rs:178-206 | the nodes of the answer are exactly those with a point between the bounds in a series of the name and tag, each with exactly such points of one such series |
| WgAllocation.FirstPeerExact | src/memory/connection/wireguard.rs:90-99 | the first address is base+2 exactly if the network has room for it |
| WgAllocation.NextIs | src/bin/api/http/handlers/connection.rs:158-187 | the n-th allocation is base+2+n and succeeds exactly while n is below the capacity |
| WgAllocation.AlignedCapacity | src/memory/connection/wireguard.rs:90-128 | an aligned /p network has capacity 2^(32-p)-2 |
| WgAllocation.FreshExact | src/bin/api/http/handlers/connection.rs:158-187 | a stored WireGuard connection at the allocated address is the only one with it exactly if no row unknown to the cache has that address |
| WgAllocation.StepAddresses | src/bin/api/sync/tasks.rs:183-423 | what each step, with each failure, does to the addresses of cache and table |
| WgAllocation.AllocationOverRuns | src/memory/storage/connection.rs:183-195 | over every run, distinctness of all addresses in the table is equivalent to a reload after every lost WireGuard creation before the next one is stored |
| WgAllocation.FreshAddresses | src/bin/api/http/handlers/connection.rs:158-187 | from empty and with any failures, all connections ever created have distinct addresses exactly under that condition, and then fill the network consecutively up to its capacity |
| WgAllocation.LostCreationCollides | src/bin/api/sync/tasks.rs:183-234 | after a creation with a lost reply the same address is handed out again, and the next reload caches two connections with it |
| ConnectionHandler.LastAddress | src/memory/storage/connection.rs:183-195 | the loop finds the highest address of all cached WireGuard connections, deleted ones included |
| ConnectionHandler.HandleCreate | src/bin/api/http/handlers/connection.rs:106-265 | exactly which reply it gives in which state, in terms of the subscription's fields; that it takes the creation step with the allocated address; and that the new connection is live, made now, with what was requested |
| ConnectionHandler.HandlerAllocates | src/bin/api/http/handlers/connection.rs:158-187 | the handler's creations are those that the allocation theorems are about |
| Subscriptions.DriftStep | src/bin/api/sync/tasks.rs:535-564 | an accepted operation keeps the stored expiry at or after the cached one within the bound |
| Subscriptions.DaysAccepted | src/memory/subscription.rs:214-221 | adding at least a day, with readings less than a day apart, is always accepted by the setter |
| Subscriptions.DriftBounded | src/bin/api/postgres/subscription.rs:89-125 | over every run the gap is at most the larger of the initial gap and the largest clock gap |
| Subscriptions.DriftExact | src/bin/api/sync/tasks.rs:553-563 | for any number of days, exactly when adding them keeps the bound |
| Subscriptions.NoDaysDrift | src/memory/subscription.rs:214-221 | adding no days keeps the bound exactly if the cached expiry is not longer past than the bound |
| Subscriptions.NegativeDaysDrift | src/bin/api/http/handlers/key.rs:134-134 | exactly when taking days away keeps the bound; it breaks it whenever fewer days are left than are taken |
| Subscriptions.FailedWriteRunsAhead | src/bin/api/sync/tasks.rs:535-592 | when the database write fails the cached expiry is ahead of the stored one; a reload heals this, and adding days again exactly if by then the cached expiry is not ahead of the table's clock |
| Subscriptions.ActiveUntil | src/memory/subscription.rs:204-206 | an active subscription stays active exactly until its expiry is reached |
| Subscriptions.InactiveExact | src/memory/subscription.rs:204-206 | it is inactive exactly if it is marked deleted, has no expiry or has reached it |
| Subscriptions.DaysActivate | src/bin/api/sync/tasks.rs:553-563 | adding at least a day makes a subscription that is not marked deleted active at the setter's reading and for the days added, in both copies |
| Subscriptions.ExtendMoves | src/memory/subscription.rs:173-178 | extending moves the end of being active by exactly the days |
| Reconciliation.PassMarks | src/bin/api/tasks.rs:74-156 | a pass marks exactly the connections it visits and publishes only about them |
| Reconciliation.PassExact | src/bin/api/tasks.rs:30-156 | a pass, in any order, marks exactly its targets |
| Reconciliation.TargetsExact | src/bin/api/tasks.rs:30-156 | on which connections each pass acts, in terms of deletion marks and expiries |
| Reconciliation.DaysRestore | src/bin/api/sync/tasks.rs:535-592 | after at least a day has been added, and for the days added, the restoration pass brings the subscription's connections back and no cleanup deletes them |
| Reconciliation.PassKeepsConverged | src/bin/api/tasks.rs:30-156 | after any history, a converged replica stays converged through a pass without failures exactly unless that restores a connection of which the replica cannot hear |
| Reconciliation.Settles | src/bin/api/tasks.rs:30-156 | a connection that is not past its own expiry under an active subscription comes to rest, with its final mark, once a run of passes includes one that acts on it |
| Reconciliation.PassesReachFixedPoint | src/bin/api/tasks.rs:30-156 | for every connection, after cleanup and restore (and expiry, without a known subscription) in any order, no pass acts on it again exactly if it is not past its own expiry under an active subscription; it is then deleted exactly when its subscription is inactive |
| Reconciliation.UntargetedUntouched | src/bin/api/sync/tasks.rs:303-384 | a further pass neither changes nor publishes about a connection it does not target |
| Reconciliation.ExpiredFlaps | src/bin/api/tasks.rs:30-72 | otherwise every expiry and restore pass changes its mark and publishes about it |
| MemSync.PassFramed | src/bin/api/tasks.rs:30-156 | whatever fails in a pass, unvisited connections and all subscription links stay as they are |
| MemSync.Sync.DbInsert | src/bin/api/postgres/connection.rs:190-250 | an insert succeeds exactly on a new key |
| MemSync.Sync.DbMark | src/bin/api/postgres/connection.rs:168-188 | delete and restore set the mark and nothing else |
| MemSync.Sync.AddConn | src/bin/api/sync/tasks.rs:183-235 | the new state is that of the creation step before publishing; when it reports success |
| MemSync.Sync.CreateConnection | src/bin/api/http/handlers/connection.rs:200-244 | the new state is that of the creation step, announcements lost or not |
| MemSync.Sync.DeleteConnection | src/bin/api/sync/tasks.rs:237-301 | the new state is that of the deletion step, with the status of each failure |
| MemSync.Sync.RestoreConnection | src/bin/api/sync/tasks.rs:386-423 | which marks are cleared for which failures |
| MemSync.Sync.RestoreTask | src/bin/api/sync/tasks.rs:338-380 | the new state is that of the restoration step |
| MemSync.Sync.GetStateFromDb | src/bin/api/tasks.rs:174-200 | the cache becomes the table, or stays as it was if a row cannot be read; each subscription's cached copy becomes the stored one |
| MemSync.Sync.CleanupExpiredConnections | src/bin/api/tasks.rs:30-72 | the pass visits exactly the live connections past their expiry, as deletion steps |
| MemSync.Sync.CleanupExpiredSubscriptions | src/bin/api/tasks.rs:74-122 | the pass visits exactly the live connections whose subscription is marked deleted, has no expiry or has reached it, as deletion steps |
| MemSync.Sync.RestoreConnectionsBySubscription | src/bin/api/sync/tasks.rs:303-384 | restores exactly the deleted connections of the subscription and reports those whose calls succeeded |
| MemSync.Sync.RestoreSubscriptions | src/bin/api/tasks.rs:124-156 | the pass visits exactly the deleted connections whose subscription is not marked deleted and expires later, as restoration steps |
| MemSync.Sync.AddDays | src/bin/api/sync/tasks.rs:535-592 | both copies of the expiry for every failure, and the restoration of an inactive subscription's connections |
| MemSync.Sync.UpdateSub | src/bin/api/sync/tasks.rs:482-533 | both copies of the expiry for every failure |
| ReplicaServices.AuthService.HandleMessagesBatch | src/bin/auth/tasks.rs:97-135 | the loop over a batch has the effect that the convergence theorems are about |
| ReplicaServices.AuthService.Restart | src/bin/auth/service.rs:115-210 | loading the file if there is one, asking for what changed since or for everything and handling the reply leaves the memory that the restart and first-start theorems are about |
| ConnectionHandler.GetConnections | src/bin/api/http/handlers/connection.rs:51-77 | the reply holds each live, matching connection modified since exactly once, as creation messages |
| ReplicaServices.NodeService.AddWireguard | src/bin/node/tasks.rs:126-171 | runs the program of a WireGuard creation up to its first refusal |
| ReplicaServices.NodeService.AddXray | src/bin/node/tasks.rs:172-243 | runs the program of an Xray or Shadowsocks creation up to its first refusal |
| ReplicaServices.NodeService.Remove | src/bin/node/tasks.rs:251-308 | runs the program of a deletion up to its first refusal |
| ReplicaServices.NodeService.HandleMessage | src/bin/node/tasks.rs:119-319 | runs the program of a message up to its first refusal |

## Left out

- Interleavings of API operations with each other, and of garbage collection with insertions: operations are atomic
  steps.
- MemSync.Sync.RestoreConnectionsBySubscription: the joined restoration tasks of one subscription run one after the
  other.
- MemSync.Sync.GetStateFromDb: the node rows loaded in the same call, which no other modelled operation reads.
- MemSync.Sync.UpdateSub: referral fields and the traffic limit, which it stores as they are given.
- ReplicaServices.NodeService.HandleMessage: the traffic counters that ResetStat clears; that call cannot fail.
- CodeErrors.SingleLetterErrorDetected: the padding sign and characters outside ASCII, whose decoding and case mapping
  are not part of this model.
- CodeErrors.PrintedCodeErrorDetected: the same characters.
- CodeErrors.FromStrExact: the same characters.
- IpText.IpRoundTrip: IPv6 addresses.
- IpText.MaskRoundTrip: IPv6 addresses and their prefix lengths up to 128.
- IpText.IpExact: IPv6 texts.
- IpText.MaskExact: IPv6 texts.
- Topics.UuidExact: the braced and the URN form.
- Topics.TopicExact: the same forms.
- BatchConfluence.HandledAsOneByOne: the state after a refused call, which `BatchConfluence.RefusedEnds` describes.
- NodeRestart.NodeRestartExact: one protocol's reply; `WholeRestart.WholeRestartExact` puts the replies together.
- WholeRestart.WholeRestartExact: all replies are told from one state of the API.
- WholeRestart.NodeSnapshotPlusDelta: the same, and the backends hold nothing before the snapshot is put back.
- Backend failures on nodes other than refusing what is already there.
- `is_host`, `first_ipv4` and `last_ipv4`, which nothing modelled here calls.
- Case mapping outside ASCII.
- Sub-microsecond clock readings and overflow of 64-bit times and of expiries.
- Creation and modification times of the records that replicas keep; deletions missed between snapshot and restart.
- Codes: `Distributor::new`, `Key::activate` and the randomness of new codes.
- Subscriptions: referral codes, traffic limits, statistics, deletion marks and `days_remaining`.
- HTTP routing, link, Clash and configuration text, sockets, gRPC, kernel WireGuard calls, SQL text and connection
  pools.
- Node registration and status, trial and payment handlers, e-mail, metric collection and display, logging and startup.
