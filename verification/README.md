# Holo: verified models of its control plane and its CDB transport

Holo is a virtual tape library. Its control plane publishes tape drives and changers
as iSCSI targets and, on the same host, as loopback SCSI devices; a C handler inside
tcmu-runner passes SCSI commands over a socket to a Rust data plane. This project
models the parts of that system whose correctness spans several functions, a lock
protocol or a whole run, and proves what they promise.

`dafny verify dfyconfig.toml` checks everything. Nothing of the original program is
executed here: files, sockets, configfs and the database are values or fields, and
each of their failures is an argument that may take any value.

## What is modelled

**Security policy of live targets** (`IscsiPolicy`, `TargetRuntime`). Bindings for
targets, drives and libraries resolve to one policy per target. `Publish`,
`Unpublish`, `Rollback`, restore, shutdown and `PutBinding` are methods of one class
because all of them hold the same outer lock. Over every run, whatever fails inside
an operation, each serving target runs the policy the bindings resolve to at that
moment, and an unpublished target stays down until somebody tries to publish it by
hand. This rests on a frame lemma (a binding changes nothing outside the targets it
reaches) and on the gate computing exactly what the tables resolve to afterwards.

**Local mount** (`SyncScheduler`, `SharedBackend`, `LunAllocation`, `DeviceLocks`).
The coalescing scheduler and the backend shared by a publication and a loopback LUN
are state machines over the steps of any number of threads; the LUN allocator and the
lock-key pass are the loops of the source. Three claims one would make about the
shared backend are false of the code, and each has a run that shows it and its exact
condition. A release can stop a backend while a publication that is not disabled
exists, because `Publish` saves its row before it takes the device lock
(`ReleaseCanMissANewcomer`, `ReleaseMissesOnlyNewcomers`; no target exists then). A
release can stop a handler under a LUN, because Sync takes a listing that failed for
an empty one (`ReleaseCanMissALun`, `OnlyTheseGoAstray`). And a LUN can be up without
a handler, because the adapter reads off its registry, which keeps an entry when a
removal fails half way (`LunCanLackItsHandler`, `LunWithoutHandler`).

**Loopback helper** (`LoopbackHelper`). Target, portal group, nexus, LUNs and the
owner marker as atomic filesystem actions, each of which may fail, with a crash
possible after any of them. The claim that a full remove always succeeds after a
crash is false in one case: a marker created but not yet written makes both operations
refuse. `RemoveAfterCrash` proves, for every file state that single actions can reach,
that this is the only case.

**CDB transport** (`Bytes`, `Utf8`, `CdbWire`, `IovecTransfer`, `CdbBridge`). The frame
format of the Rust side, the scatter/gather loops of the C side over any iovecs and
any sequence of short transfers, and the command handler between them, which stays
aligned on frame borders as long as its socket is open and gives the commands the
responses in the order of their requests.

**Changer slots** (`SlotLabels`, `SlotProtocol`). The three-pass inventory and the
reservations across create, load, unload, export, import and slot expansion. That an
unload is never refused for its slot holds unless the library contains a retired
cartridge that kept its address, which no operation here produces;
`RetiredCartridgeBlocksUnload` runs into that case and `Unload` states it as an equivalence.

**Smaller selections and limits** (`Maintenance`, `AuditTrail`, `RateLimiter`). Fair
round-robin selection, the audit ring with cursor paging under concurrent writes, and
the fixed-window rate limiter with pruning.

`StringOrder` and `Collections` hold the string order and a counting fact the others
share.

Where code and documentation differ the code is followed. The response decoder, for
instance, does not enforce the 252-byte sense limit that the frame description and
the encoder state; `ResponseRoundTrip` and `ResponseAcceptance` say what it accepts.

## Model

| member | source | states |
|---|---|---|
| Utf8.RoundTrip | data-plane/src/iscsi/cdb_wire.rs:101 | every text survives encoding to UTF-8 and decoding |
| Utf8.DecodeIsInverse | data-plane/src/iscsi/cdb_wire.rs:136-138 | bytes that decode at all are the encoding of what they decode to |
| Bytes.WordRoundTrip | data-plane/src/iscsi/cdb_wire.rs:104 | a length below 2^32 survives the four big-endian bytes |
| CdbWire.EncodePacket | data-plane/src/iscsi/cdb_wire.rs:71-113 | writes exactly the packet's frame, or refuses and writes nothing, and refuses exactly the packets that have no frame |
| CdbWire.EncodeResponse | data-plane/src/iscsi/cdb_wire.rs:232-253 | the same for responses |
| CdbWire.DecodeInitiator | data-plane/src/iscsi/cdb_wire.rs:120-145 | consumes and returns what the parser of extended headers says |
| CdbWire.DecodeCdb | data-plane/src/iscsi/cdb_wire.rs:146-171 | the CDB and data length, or invalid data, or end of input, as the parser says |
| CdbWire.DecodeHeader | data-plane/src/iscsi/cdb_wire.rs:117-172 | consumes exactly one header; the stream is left right behind it |
| CdbWire.DecodePacket | data-plane/src/iscsi/cdb_wire.rs:175-186 | consumes exactly one packet frame |
| CdbWire.DecodeResponse | data-plane/src/iscsi/cdb_wire.rs:256-285 | consumes exactly one response frame |
| CdbWire.HeaderRoundTrip | data-plane/src/iscsi/cdb_wire.rs:117-172 | a sent header is read back exactly when its name is UTF-8 and its data is at most 16 MiB, and is invalid data otherwise |
| CdbWire.PacketRoundTrip | data-plane/src/iscsi/cdb_wire.rs:71-186 | decoding an encoded packet gives it back with its initiator trimmed and a blank one dropped, and leaves what follows |
| CdbWire.ResponseRoundTrip | data-plane/src/iscsi/cdb_wire.rs:232-285 | every response whose sense length fits its byte and whose reply is within the limit is read back from its frame, the rest of the stream kept |
| CdbWire.StreamRoundTrip | data-plane/src/iscsi/cdb_wire.rs:71-186 | any concatenation of frames decodes to exactly those packets with nothing left |
| CdbWire.FramesNeverCollide | data-plane/src/iscsi/cdb_wire.rs:3-16 | no frame, plain or extended, begins like another: streams split into frames in one way |
| CdbWire.ParseMore | data-plane/src/iscsi/cdb_wire.rs:117-186 | more input never changes a packet already decoded or a rejection already made |
| CdbWire.TruncatedFrame | data-plane/src/iscsi/cdb_wire.rs:117-186 | every proper prefix of a frame is reported as truncated |
| CdbWire.DecodeThenEncode | data-plane/src/iscsi/cdb_wire.rs:71-186 | whatever is accepted can be encoded again and is then read back unchanged |
| CdbWire.CanonicalFrame | data-plane/src/iscsi/cdb_wire.rs:86-145 | the re-encoding is the accepted frame itself exactly when it is plain or its name was already trimmed and not blank |
| CdbWire.ResponseAcceptance | data-plane/src/iscsi/cdb_wire.rs:255-285 | whatever the response decoder accepts is one such frame followed by the rest, so with the round trip it accepts exactly the frames; the encoder makes those of them with at most 252 sense bytes |
| IovecTransfer.WriteFull | infra/tcmu/handler_holo.c:619-641 | on success exactly the buffer was sent, on failure a prefix of it, through any short writes and interrupts; a socket that does not fail lets it succeed |
| IovecTransfer.ReadFull | infra/tcmu/handler_holo.c:643-665 | on success exactly the next `len` bytes of the stream were consumed and returned; a socket that does not fail and holds enough lets it succeed |
| IovecTransfer.DiscardFull | infra/tcmu/handler_holo.c:829-843 | on success exactly the next `len` bytes of the stream are gone |
| IovecTransfer.BuildBatch | infra/tcmu/handler_holo.c:690-710 | at most 1024 entries covering the next bytes in order; empty exactly at the end of the iovecs |
| IovecTransfer.Advance | infra/tcmu/handler_holo.c:730-742 | index and offset stand at the old position plus what was transferred |
| IovecTransfer.WriteIovecLimited | infra/tcmu/handler_holo.c:667-746 | success sends exactly the first `len` bytes of the concatenated iovecs, failure some prefix, and the invalid-argument error means the iovecs were too short; on a socket that does not fail it succeeds exactly when the iovecs hold `len` bytes |
| IovecTransfer.ReadIovecLimited | infra/tcmu/handler_holo.c:748-827 | success stores exactly the next `len` stream bytes in the first `len` positions and changes nothing else |
| CdbBridge.RequestIsRead | data-plane/src/iscsi/cdb_wire.rs:117-186 | the data plane reads a bridge request back exactly when its name is UTF-8 and its data within the limit |
| CdbBridge.RequestsAreRead | data-plane/src/iscsi/cdb_wire.rs:117-186 | any sequence of such requests is read back one packet a request, nothing left |
| CdbBridge.DataOutLength | infra/tcmu/handler_holo.c:512-565 | never asks for more data-out than the iovecs hold, if they hold any |
| CdbBridge.UsableName | infra/tcmu/handler_holo.c:480-492 | the name sent always fits the frame's length byte |
| CdbBridge.SendHeader | infra/tcmu/handler_holo.c:1109-1133 | success sends exactly the header bytes the decoder expects |
| CdbBridge.SendRequest | infra/tcmu/handler_holo.c:1109-1141 | success sends exactly one request frame carrying the iovec or staged data |
| CdbBridge.SendCommand | infra/tcmu/handler_holo.c:1063-1141 | the frame sent is the one the command calls for: its CDB, its data-out length, its data |
| CdbBridge.ReceiveSense | infra/tcmu/handler_holo.c:1156-1187 | consumes the whole sense part and keeps what fits the 96-byte buffer |
| CdbBridge.ReceiveReply | infra/tcmu/handler_holo.c:1201-1229 | consumes the whole reply; memory holds a prefix of it, the rest of the buffers is zeroed when less arrived than was asked for |
| CdbBridge.ReceiveResponse | infra/tcmu/handler_holo.c:1156-1236 | consumes exactly one response frame of a stream of them and delivers its parts |
| CdbBridge.Refusal | infra/tcmu/handler_holo.c:1044-1089 | a command that is not refused has a supported CDB length and a data length that fits 32 bits |
| CdbBridge.Bridge.Connect | infra/tcmu/handler_holo.c:1095-1103 | keeps an open connection untouched and starts a new one with nothing sent |
| CdbBridge.Bridge.Exchange | infra/tcmu/handler_holo.c:1109-1236 | afterwards the socket is closed or one more whole frame went out and one came in; on a link that works it succeeds |
| CdbBridge.Bridge.HandleCommand | infra/tcmu/handler_holo.c:1008-1264 | a refused command changes nothing; otherwise the connection is closed and the status is busy, or exactly the command's request went out, the next response came in, its data is in memory and the status follows from it, which is what happens on a link that works |
| CdbBridge.Serve | infra/tcmu/handler_holo.c:1008-1264 | over any sequence of commands every turn is such a step between recorded states, from the first to the last, and a socket still open has sent whole frames that the data plane reads back one packet a request |
| CdbBridge.AnswersInOrder | infra/tcmu/handler_holo.c:1008-1264 | while commands are exchanged on one connection, the one after `k` others is answered with the response that was `k`th in line, and no request is lost or doubled |
| CdbBridge.HealthyStaysOpen | infra/tcmu/handler_holo.c:1095-1264 | on a connection that works, with responses that fit, every command of a session of any length is exchanged and the socket stays open |
| IscsiPolicy.CanonicalDecides | control-plane/internal/orchestration/iscsi_security_service.go:457-463 | comparing sorted initiators decides equality up to initiator order, both ways |
| IscsiPolicy.ResolveIscsiSecurity | control-plane/internal/auth/iscsi_policy_resolver.go:17-89 | the search through the source list finds the most specific binding: target, drive for drives only, library, else the default |
| IscsiPolicy.SaveKeepsRows | control-plane/internal/repo/sqlite/iscsi_security_repo.go:27-104 | a stored binding leaves every row of the three tables valid and under its key |
| IscsiPolicy.SaveKeepsTargets | control-plane/internal/repo/sqlite/iscsi_security_repo.go:27-104 | storing a binding registers nothing and moves no offline flag |
| IscsiPolicy.SameRowsSameResolution | control-plane/internal/orchestration/iscsi_security_service.go:423-455 | a target's policy depends on its own row and the rows of its drive and library only |
| IscsiPolicy.UnreachedResolvesTheSame | control-plane/internal/orchestration/iscsi_security_service.go:401-421 | every registered target outside the affected set resolves the same before and after a binding is stored |
| IscsiPolicy.ReachedResolvesAsForeseen | control-plane/internal/orchestration/iscsi_security_service.go:165-198 | what the gate resolves with the candidate is what an affected target resolves to once it is stored |
| TargetRuntime.RegisterKeeps | control-plane/internal/repo/sqlite/iscsi_security_repo.go:173-205 | registering a target changes no other target's policy |
| TargetRuntime.SetOfflineKeeps | control-plane/internal/repo/sqlite/iscsi_security_repo.go:214-227 | the offline flag never affects a policy |
| TargetRuntime.GateAgreesWithPreview | control-plane/internal/orchestration/iscsi_security_service.go:165-237 | on the same state a binding passes the gate exactly when its preview shows no busy target; a changed target whose state cannot be read is busy |
| TargetRuntime.GatedSaveKeeps | control-plane/internal/orchestration/iscsi_security_service.go:172-194 | a binding stored through the gate leaves every serving target with the policy it runs |
| TargetRuntime.Runtime.CheckTarget | control-plane/internal/orchestration/iscsi_security_service.go:172-193 | passes one target exactly when both policies resolve and are equal or the target is offline and absent; an unreadable runtime on a changed target is refused as unknown |
| TargetRuntime.Runtime.PassGate | control-plane/internal/orchestration/iscsi_security_service.go:165-193 | passes exactly when every affected target does |
| TargetRuntime.Runtime.PutBinding | control-plane/internal/orchestration/iscsi_security_service.go:149-198 | the store becomes exactly the saved one when the binding is valid, passes the gate and storage works, and stays otherwise; an audit record that cannot be written makes the answer an error although the binding is stored |
| TargetRuntime.Runtime.PreviewTarget | control-plane/internal/orchestration/iscsi_security_service.go:213-234 | the impact on one target, present exactly when both policies resolve |
| TargetRuntime.Runtime.PreviewBinding | control-plane/internal/orchestration/iscsi_security_service.go:200-237 | one impact for each affected target, or an error exactly when one does not resolve or the binding is not valid |
| TargetRuntime.Runtime.ResolvePublication | control-plane/internal/orchestration/iscsi_security_service.go:280-319 | success means the target is registered and the policy returned is what it resolves to; an automatic publish of an offline target is refused |
| TargetRuntime.Runtime.SaveIfAvailable | control-plane/internal/repo/sqlite/target_runtime_repo.go:93-122 | refused exactly when another publication of the target is ready; one still being created is superseded, no other row changes |
| TargetRuntime.Runtime.MarkOffline | control-plane/internal/orchestration/iscsi_security_service.go:266-273 | marks a registered target, and reports an error although it did when only the audit record failed |
| TargetRuntime.Runtime.Prepare | control-plane/internal/orchestration/target_runtime_service.go:422-442 | success gives the policy the target resolves to and a creating row, an error leaves the rows; only the target's own entry of the store changes |
| TargetRuntime.Runtime.Complete | control-plane/internal/orchestration/target_runtime_service.go:444-478 | the row ends in the state the faults decide; a published target serves, one whose failure was recorded is offline; nothing else changes |
| TargetRuntime.Runtime.Publish | control-plane/internal/orchestration/target_runtime_service.go:352-490 | keeps the run invariant through every failure and touches only its own target, its own row and superseded rows; it succeeds unless a fault, a store that does not resolve, a ready rival or an automatic publish of an offline target stands in the way, and then it has a row as `Complete` says or changed neither rows nor serving |
| TargetRuntime.Runtime.Unpublish | control-plane/internal/orchestration/target_runtime_service.go:492-532 | takes the target down, disables the publication and holds the target exactly when the publication is ready or failed, its target registered and no fault hits; otherwise at most the target's own offline mark and serving change |
| TargetRuntime.Runtime.Rollback | control-plane/internal/orchestration/target_runtime_service.go:534-569 | as Unpublish, for every publication that is not disabled |
| TargetRuntime.Runtime.Republish | control-plane/internal/orchestration/target_runtime_service.go:587-641 | only the publication's own target is affected, an offline one is not brought up, and nothing but a fault or the store keeps it down |
| TargetRuntime.Runtime.SaveState | control-plane/internal/orchestration/target_runtime_service.go:601-653 | a failed save leaves the row, a successful one changes only its state, and at most one publication of a target stays active |
| TargetRuntime.Runtime.RestoreOne | control-plane/internal/orchestration/target_runtime_service.go:583-653 | one round of restore: a publication left ready serves |
| TargetRuntime.Runtime.Restore | control-plane/internal/orchestration/target_runtime_service.go:571-656 | every ready publication the store allows and no fault hits serves afterwards; no target without a ready publication starts or stops serving, and only states of ready rows change |
| TargetRuntime.Runtime.Shutdown | control-plane/internal/orchestration/target_runtime_service.go:689-713 | no ready publication whose removal works serves afterwards, no other target is touched, nothing comes up |
| TargetRuntime.Runtime.Step | control-plane/internal/orchestration/target_runtime_service.go:322-326 | one operation under the outer lock keeps the invariant, is a step of the relation `Next`, and changes the held targets as the operation says |
| TargetRuntime.HeldFrom | control-plane/internal/orchestration/target_runtime_service.go:492-532 | a target taken down with no manual publish of it since is held |
| TargetRuntime.Runtime.Run | control-plane/internal/orchestration/target_runtime_service.go:328-656 | every run from any state of the invariant goes by `Next` from the state before to the state after; after every step each serving target runs the policy the bindings resolve to then, and no target taken down serves before a manual publish of it |
| SyncScheduler.InvKept | control-plane/internal/orchestration/local_mount_service.go:126-134 | every step of every thread keeps lock ownership, the single runner, up-to-dateness and the stop rules |
| SyncScheduler.NoRequestLost | control-plane/internal/orchestration/local_mount_service.go:530-610 | in every interleaving at most one runner exists, an outstanding request has one, and when it goes idle without Stop its last attempt began after the last request and read the last written setting |
| SyncScheduler.OneHolder | control-plane/internal/orchestration/local_mount_service.go:126-128 | the sync lock has at most one holder |
| SyncScheduler.WaitedStopHasNoRunner | control-plane/internal/orchestration/local_mount_service.go:511-528 | a Stop that saw the runner's channel close detaches with no runner left |
| SyncScheduler.NoEnsureAfterFinalDetach | control-plane/internal/orchestration/local_mount_service.go:495-550 | once a Stop's detach holds the sync lock no later step of any thread ensures a device |
| SharedBackend.RunsKeepInv | control-plane/internal/orchestration/tcmu_adapter.go:184-221 | the invariant of lock, LUN, registry entry, handler, backstore, mapping and publications holds over every interleaving, whichever steps fail |
| SharedBackend.BackendIsKept | control-plane/internal/orchestration/tcmu_adapter.go:516-583 | unless a LUN has gone astray it has a backstore and an active or cleanup-pending mapping, and neither Unpublish nor a release stops or deletes its backend; a release never does so under a publication's target |
| SharedBackend.OnlyTheseGoAstray | control-plane/internal/orchestration/local_mount_service.go:295-362 | a LUN loses that protection exactly when Sync drops its device after the helper could not be asked whether the LUN is gone, or links it after its mapping could not be stored |
| SharedBackend.ReleaseCanMissALun | control-plane/internal/orchestration/local_mount_service.go:335-362 | a run in which the release stops a handler under a LUN because the listing failed |
| SharedBackend.LunKeepsItsHandler | control-plane/internal/orchestration/tcmu_adapter.go:269-283 | while such a LUN is up its handler neither stops nor starts |
| SharedBackend.LunWithoutHandler | control-plane/internal/orchestration/tcmu_adapter.go:188-190 | such a LUN has no handler exactly when an operation failed leaving a backstore behind and no handler was started since |
| SharedBackend.LunCanLackItsHandler | control-plane/internal/orchestration/tcmu_adapter.go:547-559 | a run in which Unpublish kills the handler, fails to delete the target, and the next ensure finds the registry entry and links a LUN that nobody serves |
| SharedBackend.ReleaseMissesOnlyNewcomers | control-plane/internal/orchestration/target_runtime_service.go:301-316 | when release stops a backend a publication that is not disabled exists exactly if one was saved since release looked, and none of those has had the lock |
| SharedBackend.ReleaseCanMissANewcomer | control-plane/internal/orchestration/target_runtime_service.go:431-445 | a run in which release stops the backend although a creating publication exists |
| LoopbackHelper.RemoveRefusesOnlyByMarker | infra/iscsi/holo-local-loopback-helper.py:470-522 | in any state the helper leaves, remove takes a library for foreign exactly when the marker is torn or of another mapping |
| LoopbackHelper.EnsureRefusesBareLuns | infra/iscsi/holo-local-loopback-helper.py:426-468 | ensure refuses in those cases and when a LUN directory has lost its link, and in no other |
| LoopbackHelper.ActKeeps | infra/iscsi/holo-local-loopback-helper.py:524-672 | every single filesystem action of an ensure or remove keeps a complete marker in front of the target and a tree the marker describes |
| LoopbackHelper.ChainKeeps | infra/iscsi/holo-local-loopback-helper.py:189-247 | so does every state on every path of such actions, which is every state a crash can leave |
| LoopbackHelper.Helper.WriteOwner | infra/iscsi/holo-local-loopback-helper.py:824-856 | success leaves a complete marker and tells whether it is new; the tree is untouched |
| LoopbackHelper.Helper.ClearOwner | infra/iscsi/holo-local-loopback-helper.py:858-865 | removes the library's own marker and nothing else |
| LoopbackHelper.Helper.EnsureTarget | infra/iscsi/holo-local-loopback-helper.py:524-538 | a target appears only behind a complete marker; failure leaves the tree as it was |
| LoopbackHelper.Helper.EnsureNexus | infra/iscsi/holo-local-loopback-helper.py:548-565 | success sets the nexus; a failed write leaves it, a failed read-back leaves it set |
| LoopbackHelper.Helper.EnsureLun | infra/iscsi/holo-local-loopback-helper.py:566-580 | success links the LUN to its backend; failure leaves at most its bare directory |
| LoopbackHelper.Helper.RemoveLun | infra/iscsi/holo-local-loopback-helper.py:614-652 | touches no other LUN, and works on bare directories too |
| LoopbackHelper.Helper.RemoveTpg | infra/iscsi/holo-local-loopback-helper.py:602-613 | removes a portal group exactly when it has neither nexus nor LUNs |
| LoopbackHelper.Helper.RemoveTarget | infra/iscsi/holo-local-loopback-helper.py:585-596 | the marker goes after the target, never before |
| LoopbackHelper.Helper.EnsureFrame | infra/iscsi/holo-local-loopback-helper.py:202-218 | all three components, or an error after which, if no cleanup failed, the tree is as before or has its nexus set in a portal group that was there |
| LoopbackHelper.Helper.Ensure | infra/iscsi/holo-local-loopback-helper.py:189-229 | refuses foreign libraries untouched; without faults builds exactly the recorded tree; reports every LUN it could not link; says what a failure leaves |
| LoopbackHelper.Helper.Remove | infra/iscsi/holo-local-loopback-helper.py:231-247 | refuses foreign libraries untouched; a clean full remove leaves nothing, a clean partial one exactly the other LUNs |
| LoopbackHelper.Run | infra/iscsi/holo-local-loopback-helper.py:189-247 | every operation of every run takes the files by single actions from one entry of the trace to the next with the outcome its contract states; the trace holds every state the files go through, and in each a target has a complete marker of a requested mapping that describes what is under it |
| LoopbackHelper.RemoveAfterCrash | infra/iscsi/holo-local-loopback-helper.py:231-247 | from any file state that single actions on a mapping can reach, a full remove of that mapping leaves nothing, except that a torn marker makes it refuse and change nothing |
| LoopbackHelper.TornMarkerIsReachable | infra/iscsi/holo-local-loopback-helper.py:843-856 | the first ensure, failing to write, tears the marker as its only action, after which ensure and remove both refuse |
| SlotLabels.StableSlotLabels | control-plane/internal/api/resources_media_state.go:596-669 | the array passes compute the three-pass placement |
| SlotLabels.RemoveLoaded | control-plane/internal/api/resources_media_state.go:549-558 | exactly the slots of loaded labels become free |
| SlotLabels.Inventory | control-plane/internal/api/resources_media_state.go:596-669 | one entry per slot, no label twice, only active labels or labels of cartridges |
| SlotLabels.ShownOrigin | control-plane/internal/api/resources_media_state.go:596-669 | a shown label is assigned to that slot, or was shown there and is active, or belongs to an unassigned cartridge of a library without inventory |
| SlotLabels.AtOwnSlot | control-plane/internal/api/resources_media_state.go:600-621 | a cartridge that alone has its valid slot is shown there |
| SlotLabels.UnassignedIsPlaced | control-plane/internal/api/resources_media_state.go:647-667 | without inventory and with room for all, every unassigned cartridge gets a slot |
| SlotLabels.Idempotent | control-plane/internal/api/resources_media_state.go:596-669 | running again on its own result with the same cartridges changes nothing |
| SlotProtocol.Rewrite | control-plane/internal/api/resources_media_state.go:31-80 | the new inventory shows no exported cartridge, no live one outside its slot, and every listed one that alone has its slot |
| SlotProtocol.Library.Sync | control-plane/internal/api/resources_media_state.go:18-114 | restores the full invariant after a change |
| SlotProtocol.Library.NextFree | control-plane/internal/api/resources_handler.go:1220-1237 | the lowest address no live cartridge has, or none exactly when all are taken |
| SlotProtocol.Library.AddSlots | control-plane/internal/api/resources_handler.go:1132-1155 | grows by the count, one for zero, exactly when the total stays within 10000, also when the inventory cannot be written and an error is returned |
| SlotProtocol.Library.RollbackSlots | control-plane/internal/api/resources_handler.go:1157-1187 | takes an expansion back exactly when no live cartridge sits in it |
| SlotProtocol.Library.AssignSlot | control-plane/internal/api/resources_handler.go:1189-1211 | the lowest free slot, expanding by one if allowed and all are taken; it fails only then, with expansion only at the limit or for an unwritten inventory |
| SlotProtocol.Library.Create | control-plane/internal/api/resources_handler.go:519-582 | success reserves the lowest free slot and changes nothing else; a failure restores cartridges and slot count, except for a row that cannot be deleted again or an expansion whose inventory cannot be written; without faults it fails only when all slots are taken, with expansion only at the limit |
| SlotProtocol.Library.Load | control-plane/internal/api/resources_handler.go:1368-1428 | mounts exactly an available cartridge in an empty drive and keeps its reservation; otherwise nothing changes |
| SlotProtocol.OnlyRetiredInTheWay | control-plane/internal/api/resources_handler.go:1315-1359 | a live cartridge's own slot is unusable exactly when the inventory shows a retired cartridge in it |
| SlotProtocol.Library.Unload | control-plane/internal/api/resources_handler.go:1430-1494 | returns the cartridge of a loaded drive to its reserved slot, refused for the slot exactly when a retired cartridge is shown there; otherwise nothing changes |
| SlotProtocol.Library.Export | control-plane/internal/api/resources_handler.go:1496-1534 | exports exactly an available cartridge the inventory shows, which is every available one once an inventory exists if nothing is retired; it keeps its address |
| SlotProtocol.Library.Import | control-plane/internal/api/resources_handler.go:1536-1608 | back to the old slot if usable, else to the lowest free one; an exported cartridge is refused exactly when its old slot is unusable and all slots are taken |
| SlotProtocol.Library.Step | control-plane/internal/api/resources_handler.go:1111-1608 | one operation under the slot lock keeps the invariant and is a step of the relation `Next` |
| SlotProtocol.StepMoves | control-plane/internal/domain/cartridge.go:50-66 | such a step changes lifecycle states only along the allowed transitions |
| SlotProtocol.Library.Run | control-plane/internal/api/resources_handler.go:1132-1608 | every run goes by `Next` through states with distinct in-range reservations and a right inventory; no unload is refused for its slot when nothing is retired; a create that may expand fails for space only at the limit |
| SlotProtocol.RetiredCartridgeBlocksUnload | control-plane/internal/api/resources_handler.go:1339-1357 | a run from a library whose only cartridge is retired and kept its address: the create and the load succeed, the inventory shows the retired cartridge, and the unload is refused for its slot |
| LunAllocation.NextFree | control-plane/internal/orchestration/local_mount_service.go:685-690 | the search ends at the lowest unused LUN, at most one above the number in use |
| LunAllocation.AllocateOne | control-plane/internal/orchestration/local_mount_service.go:681-709 | only a new drive takes a LUN, and one nobody has |
| LunAllocation.Allocate | control-plane/internal/orchestration/local_mount_service.go:669-713 | kept devices keep LUN, identity and backend; new drives get LUNs distinct from each other and from every stored one and at most existing plus descriptors; every descriptor that must be served is |
| LunAllocation.DesiredMappings | control-plane/internal/orchestration/local_mount_service.go:669-724 | the same after sorting, and the leftovers are exactly the stored mappings nobody asked for, marked for cleanup |
| LunAllocation.Partition | control-plane/internal/orchestration/local_mount_service.go:714-720 | every stored key is wanted or stale and never both |
| LunAllocation.IdentityChanged | control-plane/internal/orchestration/local_mount_service.go:726-737 | true exactly when some stored mapping's identity differs from its descriptor's |
| LunAllocation.IdentitiesAgree | control-plane/internal/orchestration/local_mount_service.go:227-294 | when it is false every wanted mapping has its descriptor's identity |
| DeviceLocks.Dedup | control-plane/internal/orchestration/target_runtime_service.go:269-275 | the in-place pass leaves a strictly increasing prefix of exactly the keys that are not blank |
| DeviceLocks.LockOrder | control-plane/internal/orchestration/target_runtime_service.go:263-275 | from any key list: strictly increasing, exactly the requested keys that are not blank |
| DeviceLocks.StepKeeps | control-plane/internal/orchestration/target_runtime_service.go:290-298 | no lock is ever held twice |
| DeviceLocks.SomeoneCanStep | control-plane/internal/orchestration/target_runtime_service.go:290-298 | for any number of callers and key lists, while one is unfinished some caller can go on |
| DeviceLocks.EverySchedule | control-plane/internal/orchestration/target_runtime_service.go:263-299 | whoever is scheduled and whoever arrives, each step uses up one unit of work, and all callers are finished exactly when the steps have used up what was there and what arrived |
| Maintenance.KeyOrder | control-plane/internal/orchestration/storage_maintenance_service.go:260-285 | for names without NUL the joined keys sort exactly as pool, library, cartridge do |
| Maintenance.Choose | control-plane/internal/orchestration/storage_maintenance_service.go:269-276 | the first candidate above the cursor, else the first of all |
| Maintenance.Selector.Next | control-plane/internal/orchestration/storage_maintenance_service.go:240-281 | each cycle selects exactly one candidate per filesystem, in filesystem order, and moves each cursor to it |
| Maintenance.QueueIsFair | control-plane/internal/orchestration/storage_maintenance_service.go:258-268 | the sorted group of distinct NUL-free candidates has strictly increasing keys |
| Maintenance.Rotates | control-plane/internal/orchestration/storage_maintenance_service.go:269-277 | after a candidate comes its successor, after the last the first |
| Maintenance.EachExactlyOnce | control-plane/internal/orchestration/storage_maintenance_service.go:240-281 | any n consecutive cycles on a fixed group of n pick every place exactly once |
| Maintenance.RunCycles | control-plane/internal/orchestration/storage_maintenance_service.go:197-216 | cycle after cycle over a fixed inventory every filesystem gets its next pick and nothing else is selected |
| Maintenance.SelectedExactlyOnce | control-plane/internal/orchestration/storage_maintenance_service.go:240-285 | a candidate is selected exactly once in as many cycles as its filesystem has candidates |
| AuditTrail.MemoryWriter.Write | control-plane/internal/audit/writer.go:46-56 | the ring holds the last 10000 events of the history, also after wrapping |
| AuditTrail.MemoryWriter.Events | control-plane/internal/audit/writer.go:58-69 | returns the last 10000 writes, oldest first |
| AuditTrail.Query | control-plane/internal/audit/query_service.go:48-124 | the matching events below the cursor, newest first, with a cursor exactly when some are left; a foreign or unknown cursor is refused |
| AuditTrail.CursorContinues | control-plane/internal/audit/query_service.go:79-117 | after any further writes a cursor continues its snapshot right below, losing only evicted events, and is refused exactly when its own event was evicted |
| AuditTrail.Follow | control-plane/internal/audit/query_service.go:48-124 | following cursors while events arrive returns the newest part of the first snapshot without gap or repeat: all that was still kept when the last page is reached, or full pages only, and then it stopped because the batches ran out or the cursor's own event was evicted |
| RateLimiter.PruningIsInvisible | control-plane/internal/api/rate_limiter.go:109-115 | no later answer to a client depends on whether its old bucket was pruned |
| RateLimiter.SpanLimit | control-plane/internal/api/rate_limiter.go:43-88 | in any span shorter than a minute a client is let through at most twice its limit: 600 requests, 6 support bundles, 60 discoveries |
| RateLimiter.SameAnswer | control-plane/internal/api/rate_limiter.go:57-83 | the pruned table and one that is never pruned give the same answer and stay related |
| RateLimiter.Limiter.Prune | control-plane/internal/api/rate_limiter.go:52-55 | pruning keeps the books and the table size |
| RateLimiter.Limiter.Allow | control-plane/internal/api/rate_limiter.go:43-88 | with a steady clock every window keeps its limits, and while the table has room the answer is that of a limiter that never prunes |
| RateLimiter.Limiter.Count | control-plane/internal/api/rate_limiter.go:57-87 | counts in the current window and answers from the counters |
| RateLimiter.Serve | control-plane/internal/api/rate_limiter.go:43-115 | any requests in time order: the span limits hold of the replies given and the table never exceeds 4096 buckets |

## Left out

- Real I/O, configfs, targetcli, sqlite and subprocesses: atomic actions, tables and fault arguments stand for them.
- Validation of identifiers and IQNs by regular expression, and case folding: identifiers are opaque, only a blank one is invalid.
- The in-memory runtime mode of the target service: it has no live targets.
- Credentials, secrets, the effective-revision hash and audit records of the security service: opening a credential is a fault argument.
- `Rollback` in the shared-backend protocol, which calls the adapter without the device lock, and restore, which does too.
- SharedBackend.BackendIsKept: one device is followed, its publication and its mapping are taken to name the same backstore, a handler does not die by itself, and nothing is said once a LUN has gone astray.
- SyncScheduler.NoRequestLost: repository errors of `SetEnabled` and the runner's timeouts appear only as free choices of the schedule.
- LoopbackHelper.RemoveAfterCrash: portal groups other than the first, foreign targets and the observation of SCSI devices are not represented.
- Overlapping data areas and the overflow of their total length in the C bridge, the failure to allocate a staging buffer, the watchdog and timing statistics.
- SlotProtocol.Library.Run: except after an expansion the inventory is taken to be written after every change, and to be changed by nobody else; cartridges without an assigned slot and the reconciliation with shared files are not part of it.
- Identifier normalisation of created cartridges: label, identifier and barcode are one trimmed name.
- LunAllocation.DesiredMappings: its guarantees are for valid stored mappings with distinct keys and LUNs and descriptors with distinct keys, which the repository and the inventory provide.
- The signature of an audit cursor: a cursor is the event and filter it was issued for.
- RateLimiter.Serve: client addresses are taken as already normalised, and the clock as never running back.
- The order of the candidate groups' map iteration and the worker pool of the maintenance service.
- HTTP handlers, authentication, metrics, support bundles, health endpoints, the web console and the release scripts: each request is decoded, passed to one of the services above and rendered, with no state of its own that a property could span.
- The tape state machine and the storage engine behind the CDB dispatch.
