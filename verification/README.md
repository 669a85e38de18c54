# RuSPE verification model

RuSPE is a Secure Partition Manager (SPM) for Armv8-M. Clients call services through the PSA
interface; the SPM checks their vectors, keeps a bounded stack of connections, lends vectors to
services, and, in its process-isolating form, programs the memory protection unit (MPU) and switches
stacks by hand-written supervisor-call code. This project models that protocol together with the
service heap, the attestation token encoder, the two concurrent primitives and the bitmap drivers,
and proves what they are for.

Code that works in place is modelled as classes and methods with loops; each such method is proved
equal to a function of the old state, and the laws are lemmas about those functions. Runs are finite
trees of steps: services are arbitrary (their steps, closures, register contents and exit words are
parameters), and nested calls may go to any depth.

## The files

- `Basics`: results, 32-bit words, status codes and their register encoding.
- `ControlWord`: the control word of a call as clients pack it, and what a call made with one leads to.
- `Connections`: connection records, vector life cycle, validation of client vectors.
- `ConnectionStacks`: the bounded stack with take/restore leasing.
- `SpmFn`: the function-call SPM as a step machine and as an object.
- `VectorPaths`, `VectorRecord`: direct closures and supervisor calls as two ways to reach a vector, and
  what each does to the connection record field by field.
- `Mpu`, `Processes`, `SpmIpc`, `IpcProtection`, `IpcActivation`, `IpcDispatcher`: the
  process-isolating SPM: region allocation, process stacks, the step machine, MPU protection, order of
  initialisation, and the object that implements the machine.
- `ServiceApis`: the two vector interfaces of a service as code over the leased connection and over the
  process-isolating SPM.
- `SvcMachine`, `SvcRuns`, `ProcessStart`: registers, stacks and memory under the supervisor-call handler.
- `IpcReach`: what a process can reach while it runs.
- `IpcWrites`: what the MPU lets a called service write in the course of a call, and what that means for
  the caller's stacked context.
- `Heap`: the first-fit heap.
- `BootRecord`, `Cbor`, `PsaClaims`, `Cose`, `PsaToken`, `TokenReader`: boot records, CBOR (RFC 8949),
  claims, COSE_Sign1 (RFC 9052), the token, and the token as its receiver reads it.
- `OnceLock`, `Mutex`: interleaved atomic steps of any number of threads.
- `Words`, `Mpc`, `Ppc`: register words, the memory and peripheral protection controllers.

## Results that are exact conditions

Some expected properties do not hold of the code on all inputs; the lemmas say exactly when they do.

- The MPU follows the active connection in every state of a run if and only if every closure that
  leases a connection out gives one back whose configuration is what the services called inside have
  left programmed (`IpcProtection.RunFollowsExactly`, `ClosureFollowsExactly`). Supervisor calls, and
  closures that call nothing and leave the live vectors alone, always do (`QuietRunFollows`,
  `EveryRunFollows`). Two inputs that do not: a call made inside a closure
  (`CallInsideAccessLeavesCallee`), and a direct write that reports more than it was lent
  (`OverlongWriteStopsFollowing`).
- Every call of a process comes after its initialisation has ended if and only if no process is called
  from inside its own initialisation (`IpcActivation.EveryRunIsOrdered`, with
  `ReentrantInitIsCalledEarly` as the input that fails).
- The two vector paths give a service the same outcomes if and only if no request of its
  supervisor-call run is one that would be served there and names a released vector that would be handed
  out again (`VectorPaths.RunsAgreeExactly`). Naming each vector once suffices (`PathsAgree`); a second
  read differs (`SecondReadDiffers`), a second write differs only if the first committed nothing
  (`SecondWriteDiffersIfNothingWritten`).
- The overlap check refuses exactly lists of two or more inputs in which one wraps, two share a byte, or
  an empty one lies strictly inside another (`Connections.OverlapRefusalIsExact`).
- `calloc` rounds up exactly when its product plus seven fits a word (`Heaps.RoundingIsExact`). Beyond
  that the rounding is zero, and with a free table entry the heap is cleared and overrun
  (`WrappingRequestOverruns`, `WrappingRequestClears`).
- A call gives its caller's context back, whatever the called service does, if and only if no word that
  waits is open to that service: r12, lr, pc and xpsr of the caller's frame, or the live part of the main
  stack below the caller (`SvcRuns.CallRestoresExactly`). What the MPU opens over a call, at some point of
  some run of supervisor calls, is known exactly: granted writable regions, and the whole 32-byte blocks of
  outputs that are not refused (`IpcWrites.OpensExactly`, `CallRestoresUnderMpuExactly`). The code does not
  keep the two apart: an output on the caller's own stack that starts, at or above the stack pointer, in a
  block that begins below it opens the stacked pc and xpsr although none of its bytes lies in the frame
  (`OutputAboveStack`, `OutputBesideFrame`).
- The boot record parser checks entries against the data, not against the record's length: it finds
  something exactly in records whose entries begin inside that length, though the last may end behind it
  (`BootRecords.ParseIsExact`).
- `set_non_secure` checks alignment of absolute addresses but counts blocks from the memory base: it
  opens exactly the requested addresses if and only if the base is a multiple of the block size
  (`Mpcs.RequestedAddressesExactly`, with `MisalignedBaseShifts` as an accepted request that does not).
- `set_pc_masks_range` rewrites whole registers: other regions keep their contexts if and only if no
  register of a region is rewritten, or the range starts at a multiple of four and ends at one or at or past
  the last region (`Ppcs.RangeLeavesOthersExactly`).
- The bulk tables differ from per-region writes in the two unused entries 222 and 223 only
  (`Ppcs.BulkBitsAgree`, `Ppcs.BulkContextsAgree`).

## Model

| member | source | states |
|---|---|---|
| `Basics.StatusRoundTrip` | spe/psa_interface/src/status.rs:69-121 | every status code survives its unsigned register encoding |
| `Basics.EveryStatusWord` | spe/spe/src/spm_api/svc.rs:151-160 | over all words: zero is success, a status word is its status, and anything else a communication failure |
| `Connections.ActiveConnection.PrepareInvec` | spe/spe/src/spm_api/connection.rs:260-297 | an input is handed out exactly when its index is valid and it is neither mapped nor accessed; then only its mapped flag changes, otherwise nothing |
| `Connections.ActiveConnection.MarkInvecUnmapped` | spe/spe/src/spm_api/connection.rs:299-308 | an input is marked released exactly once; a second release is an error and changes nothing |
| `Connections.ActiveConnection.PrepareOutvec` | spe/spe/src/spm_api/connection.rs:313-350 | an output is handed out exactly when its index is valid and it is neither mapped nor written |
| `Connections.ActiveConnection.CommitOutvecWrite` | spe/spe/src/spm_api/connection.rs:352-373 | a commit succeeds exactly for a valid, unreleased output and a length within the lent one, and records length, size and release flag together |
| `Connections.ActiveConnection.UpdateMapping` | spe/spe/src/spm/spm_ipc/spm_ipc.rs:101-128 | mapping sets one flag and clears its opposite for one vector, and ignores indices outside the arrays |
| `Connections.ValidateInvecPayloadNonoverlap` | spe/spe/src/spm_api/connection.rs:103-134 | the nested loop accepts exactly fewer than two inputs, or inputs none of which wraps and no two of which overlap as intervals |
| `Connections.CallFromSlices` | spe/spe/src/spm_api/connection.rs:139-202 | a connection is built if and only if parameters, counts, ranges and permissions are acceptable; it is untouched, its recorded sizes and bases are the client's, and unused entries are none; otherwise the error is that of the first check that fails, inputs before outputs, range before permission |
| `Connections.AcceptedVectorsAreSound` | spe/spe/src/spm_api/connection.rs:139-247 | for accepted vectors: no wrap, no null, permission in the right direction, inputs pairwise share no byte, and no accepted length is the none sentinel |
| `Connections.SharingIsCaught` | spe/spe/src/spm_api/connection.rs:103-134 | inputs that share a byte always overlap as intervals |
| `Connections.OverlapIsSharing` | spe/spe/src/spm_api/connection.rs:103-134 | for non-empty inputs the interval test is exactly "some byte is in both" |
| `Connections.OverlapRefusalIsExact` | spe/spe/src/spm_api/connection.rs:103-134 | for any list: it is refused if and only if it has two or more vectors and one wraps, two share a byte, or an empty one lies strictly inside another |
| `Connections.OverlapCases` | spe/spe/src/spm_api/connection.rs:110-130 | for any two vectors, empty or not: they overlap as intervals exactly when they share a byte or one is empty and strictly inside the other |
| `Connections.EmptyInsideIsRefused` | spe/spe/src/spm_api/connection.rs:103-134 | a concrete empty input inside another is refused although no byte is shared; at its end it is accepted |
| `Connections.FirstVecErrorIs` | spe/spe/src/spm_api/connection.rs:161-189 | the first faulty vector in scan order decides the error |
| `ControlWords.PackedUnpacks` | spe/psa_interface/src/types.rs:89-144 | over all packed words: the type is read back as a signed half word, the counts as three bits each, and counts are looked at if any bit above the type is set |
| `ControlWords.PackedParams` | spe/spe/src/spm_api/connection.rs:49-71 | parameters are accepted exactly for a type that is not negative and at most four vectors, and are then what the client packed, inputs and outputs apart |
| `ControlWords.ProperRequestIsAccepted` | spe/spe/src/spm_api/connection.rs:139-189 | a request for i proper inputs that lie apart and o proper outputs, with a word that says so, is accepted if and only if i + o is at most four |
| `ControlWords.ImproperRequestIsRefused` | spe/spe/src/spm_api/connection.rs:139-247 | with other counts than the word says, a negative type or an improper vector a request is refused whatever else it holds |
| `ControlWords.ConnectionSaysRequest` | spe/spe/src/spm_api/connection.rs:147-202 | the connection of an accepted request says handle, caller and type, and base and length of each vector at its index; unused entries say none, and nothing has been touched |
| `ControlWords.RefusalSaysWhy` | spe/spe/src/spm_api/connection.rs:139-247 | a refusal is the programmer's error, except that it is an invalid argument exactly if word, counts and places are in order and the first improper vector, inputs before outputs, is one its caller may not use |
| `ControlWords.VectorsAtPointers` | spe/spe/src/spm_api/connection.rs:77-98 | a call reads at each pointer as many vectors as its word says; the null pointer of a direction with vectors, too many vectors or a negative type is the programmer's error |
| `ConnectionStacks.TakeThenRestore` | spe/spe/src/spm/spm.rs:76-122 | after a take, restoring any connection at the returned index succeeds and touches only that slot; restoring the same one undoes the take |
| `ConnectionStacks.LastInFirstOut` | spe/spe/src/spm/spm.rs:58-158 | what has been added is the active connection and what a pop removes; four can be open; only an empty stack has no top, and a leased top can be neither taken nor looked at |
| `ConnectionStacks.ConnectionArray.constructor` | spe/spe/src/spm/spm.rs:49-56 | the array starts as the empty stack |
| `ConnectionStacks.ConnectionArray.AddConnection` | spe/spe/src/spm/spm.rs:58-74 | push on the abstract stack, or the full error with no change |
| `ConnectionStacks.ConnectionArray.TakeActiveConnection` | spe/spe/src/spm/spm.rs:76-97 | lease the top slot, with the two error cases leaving the stack alone |
| `ConnectionStacks.ConnectionArray.RestoreActiveConnection` | spe/spe/src/spm/spm.rs:99-122 | fill an empty slot; an occupied or foreign index is an error with no change |
| `ConnectionStacks.ConnectionArray.PopConnection` | spe/spe/src/spm/spm.rs:124-138 | the top slot is dropped whether or not it is leased out |
| `ConnectionStacks.ConnectionArray.PeekActiveConnection` | spe/spe/src/spm/spm.rs:140-158 | the top connection, or which of the two reasons there is none |
| `SpmFns.SpmFn.Call` | spe/spe/src/spm/spm_fn.rs:40-56 | the final state is the step machine's for any service behaviour; the status is the service's, or busy with four connections open |
| `SpmFns.SpmFn.WithActiveConnection` | spe/spe/src/spm/spm_fn.rs:62-86 | lease, arbitrary steps under the lease, restore: final state and result are the step machine's |
| `SpmFns.SpmFn.RunService` | spe/spe/src/spm/spm_fn.rs:40-87 | any service run ends in the last state of the step machine |
| `SpmFns.StepKeeps` | spe/spe/src/spm/spm_fn.rs:40-87 | one step of any nesting depth keeps height, leases and every slot below the active one; a call gives back exactly the state it found |
| `SpmFns.RunKeeps` | spe/spe/src/spm/spm_fn.rs:40-87 | the same over every run, in every state on the way |
| `SpmFns.EveryRunIsSound` | spe/spe/src/spm/spm_fn.rs:40-87 | from the empty stack, in every visited state a slot is present exactly when below the top and not leased, no restore ever fails, and the run ends empty |
| `SpmFns.FullStackRefuses` | spe/spe/src/spm/spm_fn.rs:46-50 | a call is refused, its trace being the start state alone, if and only if four connections are open |
| `SpmFns.NestedAccessIsRefused` | spe/spe/src/spm/spm_fn.rs:62-73 | an access is refused, its trace being the start state alone, exactly when nothing is open or the active connection is already leased |
| `SpmFns.LeaseComesBack` | spe/spe/src/spm/spm_fn.rs:62-86 | whatever runs under the lease, the restore finds its own slot empty: an access fails only if its take fails |
| `SpmFns.CalledServiceRuns` | spe/spe/src/spm/spm_fn.rs:40-56 | every state of the called service's run, with its connection active, is a state of the call |
| `SpmFns.AccessActsOnActive` | spe/spe/src/spm/spm_fn.rs:62-86 | an access leaves the active connection as its closure makes it and everything else as it was; the steps inside find it leased out |
| `SpmFns.StepsInOrder` | spe/spe/src/spm/spm_fn.rs:40-87 | steps are taken in order, each from where the one before ended |
| `VectorPaths.StatusIsReadBack` | spe/spe/src/spm_api/svc.rs:151-160 | a status put into the frame is what the service reads out, success as success |
| `VectorPaths.TakeIsTransparent` | spe/spe/src/spm_api/svc.rs:92-107 | through the register frame a service gets the vector's slice or the refusal, for every handle, index and direction |
| `VectorPaths.GiveIsTransparent` | spe/spe/src/spm_api/svc.rs:108-122 | through the register frame a release commits or refuses as the connection says |
| `VectorPaths.OneAccessAgreesExactly` | spe/spe/src/spm_api/svc.rs:291-349 | one read, write or combined access has the same slices, status and committed length on both paths if and only if it does not name a released vector that supervisor calls would hand out again along with the others |
| `VectorPaths.RunsAgreeExactly` | spe/spe/src/spm_api/svc.rs:291-349 | for every service, however it chooses its accesses: the outcomes of the whole run are equal on both paths if and only if no access of the supervisor-call run diverges, and then sizes and written lengths agree too |
| `VectorPaths.PathsAgree` | spe/spe/src/spm_api/svc.rs:291-349 | in particular for every service that names each vector at most once |
| `VectorPaths.FreshConnectionAgrees` | spe/spe/src/spm_api/connection.rs:190-202 | an untouched connection is a valid start for both paths, with every vector unused |
| `VectorPaths.SecondReadDiffers` | spe/spe/src/spm/spm_ipc/spm_ipc.rs:114-121 | a second read of an input is refused directly and served again, with the same slice, by supervisor calls |
| `VectorPaths.SecondWriteDiffersIfNothingWritten` | spe/spe/src/spm/spm_ipc/spm_ipc.rs:107-113 | after a first accepted write, a second one has the same outcome on both paths if and only if the first committed something; otherwise supervisor calls lend an empty slice |
| `VectorPaths.StepsOnlyNarrow` | spe/spe/src/spm_api/connection.rs:260-497 | over every mix of accesses and releases on either path bases and input sizes stay, no output outgrows its declared length, and commits stay within it |
| `VectorPaths.DirectAccessMarks` | spe/spe/src/spm_api/connection.rs:378-425 | a direct access lends only unmapped vectors, marks them, and unmarks none |
| `VectorPaths.DirectLendsOnce` | spe/spe/src/spm_api/api.rs:23-63 | on the direct path no vector is handed out twice, whatever the service asks for |
| `VectorRecords.ForeignHandleIsRefused` | spe/spe/src/spm_api/connection.rs:19-38 | an access that names another service's connection changes nothing, lends nothing and answers an invalid handle, on both paths; one that names the connection's own handle never does |
| `VectorRecords.TakeInput` | spe/spe/src/spm_api/svc.rs:92-107 | ACCESS_VEC for an input, on the record: handle, request, index, neither mapped nor accessed; then mapped, not released, and lent as it lies, empty without a base |
| `VectorRecords.TakeOutput` | spe/spe/src/spm_api/svc.rs:92-107 | the same for an output that is neither mapped nor written |
| `VectorRecords.GiveInput` | spe/spe/src/spm_api/svc.rs:108-122 | RELEASE_VEC for an input, on the record: once, mapped or not |
| `VectorRecords.GiveOutput` | spe/spe/src/spm_api/svc.rs:108-122 | RELEASE_VEC for an output: once, with a length within the one on record, which it replaces |
| `VectorRecords.ReadDirectly` | spe/spe/src/spm_api/connection.rs:378-399 | a direct read, on the record: mapped before the closure sees it, released after |
| `VectorRecords.WriteDirectly` | spe/spe/src/spm_api/connection.rs:404-425 | a direct write: what the closure reports is committed unless it is more than was lent |
| `VectorRecords.ReadWriteDirectly` | spe/spe/src/spm_api/api.rs:39-62 | both at once: the input is mapped first and released last, and what was done before a failure stays done |
| `VectorRecords.LentAsPassed` | spe/spe/src/spm_api/connection.rs:139-297 | a service is lent exactly the vectors its client passed, each at its index, an empty one at indices left out and nothing from four on, on both paths |
| `VectorRecords.TakeAndGiveAlternate` | spe/spe/src/spm_api/svc.rs:92-122 | a vector is not lent again before it is released and not released twice; an output is released exactly with a length within what was lent |
| `ServiceApis.WithMappedInvec` | spe/spe/src/spm_api/connection.rs:378-399 | map, lend, release on the leased connection: connection and outcome are the direct path's |
| `ServiceApis.WithMappedOutvec` | spe/spe/src/spm_api/connection.rs:404-425 | map, lend, commit against the lent length: connection and outcome are the direct path's |
| `ServiceApis.WithMappedBoth` | spe/spe/src/spm_api/api.rs:39-62 | input and output together: a failure part-way leaves exactly the flags set before it |
| `ServiceApis.SfnAccess` | spe/spe/src/spm_api/connection.rs:28-38 | a handle mismatch or non-request message is refused before anything is mapped; otherwise the access runs on the leased connection |
| `ServiceApis.SfnApiAccess` | spe/spe/src/spm_api/connection.rs:19-45 | through the SPM object: the connection is taken, used and restored, which never fails; without one the access is a communication failure with no change |
| `ServiceApis.SfnStepIsAccess` | spe/spe/src/spm/spm_fn.rs:62-86 | and that is an access step of the function-call step machine |
| `ServiceApis.AccessStepIsAccessVec` | spe/spe/src/spm_api/svc.rs:92-107 | ACCESS_VEC on the SPM with stack and MPU is ACCESS_VEC on the active connection, and stays with its process |
| `ServiceApis.ReleaseStepIsReleaseVec` | spe/spe/src/spm_api/svc.rs:108-122 | RELEASE_VEC on the SPM is RELEASE_VEC on the active connection, and stays with its process |
| `ServiceApis.SvcAccessVec` | spe/spe/src/spm_api/svc.rs:162-194 | the call issued through the SPM object yields the slice or status, and the active connection, of the path function |
| `ServiceApis.SvcReleaseVec` | spe/spe/src/spm_api/svc.rs:196-211 | the release issued through the SPM object, likewise |
| `ServiceApis.SvcApiAccess` | spe/spe/src/spm_api/svc.rs:291-349 | a whole access by supervisor calls on the SPM object refines the path function, so the agreement of the two paths holds of the object |
| `ServiceApis.CallerReadsResult` | spe/spe/src/spm_api/api.rs:286-416 | for every call with nothing that waits open to the called service: through thunk, stack switches and any tree of nested activations, r0 decodes to what the call reported in the SPM, and r1-r3 are the caller's own after a success, zero otherwise |
| `Mpus.Mpu.AllocateRegion` | libraries/cortex_m/src/mpu.rs:225-291 | the first reason to refuse in the source's order, or the first free slot filled with the packed region; a refusal changes nothing |
| `Mpus.Mpu.ConfigureMpu` | libraries/cortex_m/src/mpu.rs:297-315 | afterwards the region registers hold exactly the configuration, unused slots zero |
| `Mpus.PackDecodes` | libraries/cortex_m/src/mpu.rs:225-262 | base, limit, access bits and the enable bit are read back from the packed registers |
| `Mpus.CollisionIsOverlap` | libraries/cortex_m/src/mpu.rs:264-278 | the register-level test rejects exactly ranges that share an address |
| `Mpus.GrantedIsWellFormed` | libraries/cortex_m/src/mpu.rs:225-291 | granted ranges are 32-aligned, among the requests, pairwise disjoint and at most as many as there are regions |
| `Mpus.AllocateExtendsGrants` | libraries/cortex_m/src/mpu.rs:225-291 | one allocation on the registers is one step of greedy admission of ranges |
| `Mpus.RefusalSaysWhy` | libraries/cortex_m/src/mpu.rs:225-291 | why an allocation is refused, in terms of ranges: unaligned base or end, fewer than 32 bytes, an earlier grant that shares an address, or no region left |
| `Mpus.AllocationIsGreedy` | libraries/cortex_m/src/mpu.rs:225-291 | every configuration reachable by allocation is a prefix-filled encoding of the greedily admitted ranges |
| `Mpus.ProgrammedCoversGrants` | libraries/cortex_m/src/mpu.rs:225-315 | after programming, an address is covered if and only if a granted request contains it |
| `Mpus.RegistersTellGrants` | libraries/cortex_m/src/mpu.rs:225-315 | two request lists program the same registers if and only if the same ranges, with the same access, are granted |
| `Processes.StagingLeavesRoom` | spe/spe/src/spm/spm_ipc/process.rs:122-164 | a staged mailbox is aligned, inside RAM, and leaves room for the frame: the start that follows cannot fail its bounds check |
| `Processes.StagingIsExact` | spe/spe/src/spm/spm_ipc/process.rs:102-164 | staging succeeds exactly for the highest aligned mailbox that fits stack and RAM |
| `Processes.StagingErrorIs` | spe/spe/src/spm/spm_ipc/process.rs:120-157 | insufficient memory exactly if the stack has no room for message and frame; otherwise a failure is that the place is not in the RAM |
| `SpmIpcs.StepKeeps` | spe/spe/src/spm/spm_ipc/spm_ipc.rs:74-260 | one step of any nesting depth keeps height, leases and everything below the active slot; a call gives back exactly the stack it found |
| `SpmIpcs.RunKeeps` | spe/spe/src/spm/spm_ipc/spm_ipc.rs:74-260 | the same over every run; in every state slots are present exactly when below the top and not leased, and no restore fails |
| `SpmIpcs.CallKeeps` | spe/spe/src/spm/spm_ipc/spm_ipc.rs:224-260 | a call, with initialisation and nested calls, never touches its caller's connection |
| `SpmIpcs.LeaseComesBack` | spe/spe/src/spm/spm_ipc/spm_ipc.rs:74-99 | whatever runs under a lease, the restore finds its own slot empty |
| `SpmIpcs.RefusalIsExact` | spe/spe/src/spm/spm_ipc/spm_ipc.rs:225-238 | a call is refused, its trace being the start state alone, if and only if no process has the handle or four connections are open |
| `SpmIpcs.CalledServiceRuns` | spe/spe/src/spm/spm_ipc/spm_ipc.rs:213-262 | the called service runs with its connection active: initialisation if due and with room, then the body from where that ended if the message can be staged; all its states are states of the call |
| `SpmIpcs.ClosureActsOnActive` | spe/spe/src/spm/spm_ipc/spm_ipc.rs:265-267 | a closure leaves the active connection as it makes it and lower ones as they were; the steps inside find it leased out |
| `SpmIpcs.StepsInOrder` | spe/spe/src/spm/spm_ipc/spm_ipc.rs:213-267 | steps are taken in order, each from where the one before ended |
| `SpmIpcs.VectorCallRefusals` | spe/spe/src/spm_api/svc.rs:84-122 | an unknown handle, no active connection, or another service's: nothing changes, r0 says which, and r1-r3 are zero |
| `SpmIpcs.HandleWordsAreExact` | spe/spe/src/spm_api/svc.rs:38-47 | exactly the handle words of the services name a service, each its own |
| `SpmIpcs.VersionIsDeclared` | spe/spe/src/spm/spm_ipc/spm_ipc.rs:292-299 | the version declared by the first process with the handle, zero without one |
| `SpmIpcs.AnswerIsReadBack` | spe/spe/src/spm_api/svc.rs:49-62 | the status of a call is read back from r0; success leaves r1-r3 alone, an error clears them |
| `IpcProtection.RunFollowsExactly` | spe/spe/src/spm/spm_ipc/spm_ipc.rs:74-260 | in every state of a run, of any nesting depth and with any closures, the region registers equal the configuration computed from scratch for the active connection whenever it is in its slot, if and only if every closure restores: what it gives back has the configuration left by the last service called inside, or the old one |
| `IpcProtection.ClosureFollowsExactly` | spe/spe/src/spm/spm_ipc/spm_ipc.rs:74-99 | for one closure: its connection is in its slot, the registers are those left by the last service called inside or the old ones, and the MPU follows if and only if these are the ones computed for that connection |
| `IpcProtection.QuietClosure` | spe/spe/src/spm/spm_ipc/spm_ipc.rs:74-99 | a closure that makes no accepted call restores exactly when the connection it gives back has the configuration of the one it was lent |
| `IpcProtection.QuietRunFollows` | spe/spe/src/spm/spm_ipc/spm_ipc.rs:101-260 | runs of supervisor calls and of closures that call nothing and keep handle and live vectors always follow |
| `IpcProtection.RunFollows` | spe/spe/src/spm/spm_ipc/spm_ipc.rs:101-260 | with supervisor calls only, from any state where the MPU follows the top, nothing is ever leased and the MPU follows the top in every state |
| `IpcProtection.EveryRunFollows` | spe/spe/src/spm/spm_ipc/spm_ipc.rs:101-260 | so from power-up, after every call, access, release, failed step and nested return |
| `IpcProtection.CallLeavesMpu` | spe/spe/src/spm/spm_ipc/spm_ipc.rs:206-260 | a call gives its caller's registers back exactly as they were if the caller's connection is in its slot; otherwise the called service's configuration stays |
| `IpcProtection.CallInsideAccessLeavesCallee` | spe/spe/src/spm/spm_ipc/spm_ipc.rs:74-260 | any call inside any closure: the called service's configuration stays, and the MPU follows only if it is that of the connection given back |
| `IpcProtection.OverlongWriteStopsFollowing` | spe/spe/src/spm_api/connection.rs:404-425 | a direct write that reports more than it was lent leaves its output live and the registers as they were; the MPU follows if and only if the vector's region would have been refused anyway |
| `IpcProtection.ConfigsEqualExactly` | spe/spe/src/spm/spm_ipc/spm_ipc.rs:130-202 | two configurations are equal if and only if the same ranges are granted |
| `IpcProtection.DifferentRomDiffers` | spe/spe/src/spm/spm_ipc/spm_ipc.rs:130-153 | they do not coincide for processes with different, usable ROM |
| `IpcProtection.WideningIsExact` | spe/spe/src/spm/spm_ipc/spm_ipc.rs:155-167 | a widened vector covers exactly the 32-byte blocks it touches: all of the vector and less than a block on either side |
| `IpcProtection.RequestIsEntitled` | spe/spe/src/spm/spm_ipc/spm_ipc.rs:130-193 | every region requested for a process lies within its ROM, RAM, custom regions or the blocks of a live vector |
| `IpcProtection.MpuGrantsOnlyEntitled` | spe/spe/src/spm/spm_ipc/spm_ipc.rs:130-201 | every address the programmed MPU covers is one the process is entitled to |
| `IpcReaches.OwnMemoryIsReached` | spe/spe/src/spm/spm_ipc/spm_ipc.rs:145-149 | a process can read and execute its code and read and write its memory, unless these are no regions or overlap |
| `IpcReaches.InputIsReached` | spe/spe/src/spm/spm_ipc/spm_ipc.rs:155-181 | every input that is mapped, not released and not empty has a read-only region of its blocks, unless that is not admissible after the process's own regions and the inputs before it |
| `IpcReaches.OutputIsReached` | spe/spe/src/spm/spm_ipc/spm_ipc.rs:182-192 | every such output has a read-write region, unless that is not admissible after all inputs and the outputs before it |
| `IpcReaches.LentVectorIsReached` | spe/spe/src/spm_api/svc.rs:92-107 | after a successful ACCESS_VEC the vector handed out has its region, unless that is refused after the earlier ones |
| `IpcActivation.StagingImpliesInitRuns` | spe/spe/src/spm/spm_ipc/process.rs:122-197 | a process whose message can be staged has room for its initialisation, so a skipped one never precedes a call |
| `IpcActivation.StepIsOrdered` | spe/spe/src/spm/spm_ipc/spm_ipc.rs:224-260 | one step of any depth: in every state initialisations have begun and ended at most once, begun before they end and before their process is called, and the flags say which; calls come after ended initialisations exactly as long as they stay outside them |
| `IpcActivation.EveryRunIsOrdered` | spe/spe/src/spm/spm_ipc/spm_ipc.rs:224-260 | over every run from power-up: initialisation runs at most once and begins before the first call; it has ended before every call if and only if no process is called from inside its own initialisation |
| `IpcActivation.ReentrantInitIsCalledEarly` | spe/spe/src/spm/spm_ipc/spm_ipc.rs:245-249 | a service that calls itself while it is initialised is called before its initialisation ends |
| `IpcDispatcher.SpmIpc.MarkInitDone` | spe/spe/src/spm/spm_ipc/spm_ipc.rs:31-46 | says whether the flag was clear and sets it; a foreign index is an error |
| `IpcDispatcher.SpmIpc.ApplyMpuConfig` | spe/spe/src/spm/spm_ipc/spm_ipc.rs:130-202 | the loops over ROM, RAM, custom regions and live vectors program exactly the specified configuration and change nothing else |
| `IpcDispatcher.SpmIpc.UpdateVecMapping` | spe/spe/src/spm/spm_ipc/spm_ipc.rs:101-128 | flags of one vector of the active connection, then the MPU; nothing without an active connection of a known process |
| `IpcDispatcher.SpmIpc.GetLastProcessIndex` | spe/spe/src/spm/spm_ipc/spm_ipc.rs:206-218 | pops, and finds the process of the connection below if it is in its slot |
| `IpcDispatcher.SpmIpc.WithActiveConnection` | spe/spe/src/spm/spm_ipc/spm_ipc.rs:74-99 | lease, arbitrary steps, restore: state and result are the step machine's |
| `IpcDispatcher.SpmIpc.Call` | spe/spe/src/spm/spm_ipc/spm_ipc.rs:224-260 | final state and status of a call are the step machine's for any behaviour of the called service |
| `IpcDispatcher.SpmIpc.Enter` | spe/spe/src/spm/spm_ipc/spm_ipc.rs:231-240 | the entry half: push, mark and program, or the full error with no change |
| `IpcDispatcher.SpmIpc.Leave` | spe/spe/src/spm/spm_ipc/spm_ipc.rs:251-256 | the exit half: pop and reprogram for the previous process, if any |
| `IpcDispatcher.SpmIpc.RunService` | spe/spe/src/spm/spm_ipc/spm_ipc.rs:74-260 | any service run ends in the last state of the step machine |
| `IpcDispatcher.SpmIpc.HandleSvc` | spe/spe/src/spm_api/svc.rs:78-149 | every number: the two vector calls, SVC_PSA_CALL with its answer in the frame, and the version have exactly the specified effect on SPM state and register frame; a bad raw handle is refused first, and an unknown number is unhandled with no change |
| `IpcDispatcher.SpmIpc.PrepareVecRaw` | spe/spe/src/spm_api/connection.rs:438-480 | prepares under a lease that always comes back; without a connection a communication failure |
| `IpcDispatcher.SpmIpc.FinishVecRaw` | spe/spe/src/spm_api/connection.rs:455-497 | finishes under a lease, checking the committed length against the size on record |
| `IpcDispatcher.SpmIpc.PsaCall` | spe/spe/src/spm_api/api.rs:65-92 | a refused request gets the error of the first check that fails, null vector arrays included, and leaves the SPM untouched; an accepted one is a call with a fresh connection of the requested type that records the client's vectors |
| `SvcMachines.Core.SvcStartProcess` | spe/spe/src/spm_api/api.rs:263-270 | the exception return resumes the frame on the process stack, unprivileged, with every other register and all memory as before |
| `SvcMachines.Core.SvcProcessExit` | spe/spe/src/spm_api/api.rs:272-284 | the exception return resumes the frame at MSP, privileged on the main stack, with the r0 of the frame that made the call; PSP and PSPLIM are kept and no other word changes |
| `SvcMachines.Core.SvcPsaCall` | spe/spe/src/spm_api/api.rs:286-325 | frame pointer, CONTROL, PSPLIM and EXC_RETURN are saved below MSP and only those 48 bytes change, for every frame; the thunk's frame holds the caller's r0-r3 if its frame lies elsewhere |
| `SvcMachines.Core.SvcPsaCallReturn` | spe/spe/src/spm_api/api.rs:327-367 | 48 bytes of the main stack are dropped and only four words of the saved frame change, for every frame; results and saved registers are as they were if the frame lies elsewhere |
| `SvcMachines.Core.PrepareUnpriv` | spe/spe/src/spm/spm_ipc/svc_call.rs:37-80 | refused with no change exactly when the frame does not fit above the stack limit; otherwise the frame holds argument, entry point and faulting return address, PSP points to it, and no other word changes |
| `SvcMachines.Core.StageMsgMailbox` | spe/spe/src/spm/spm_ipc/process.rs:122-164 | writes the message words at the mailbox address, or fails with nothing written |
| `SvcRuns.CallEntrySaves` | spe/spe/src/spm_api/api.rs:286-325 | after SVC_PSA_CALL the thunk runs privileged on the main stack with the caller's arguments, everything needed to return is in memory, and no other word changed |
| `SvcRuns.ThunkLoadsResults` | spe/spe/src/spm_api/api.rs:386-416 | the answer written into the thunk's frame reaches r0-r3: success keeps the caller's arguments in r1-r3, an error clears them; the frame is dropped |
| `SvcRuns.CallReturnRestores` | spe/spe/src/spm_api/api.rs:327-367 | SVC_PSA_CALL_RETURN after a matching entry gives the caller's MSP, PSP, PSPLIM, CONTROL and stack selection back, and of its frame only r0-r3 are new |
| `SvcRuns.StartOrphansFrame` | spe/spe/src/spm/spm_ipc/svc_call.rs:27-102 | starting a process leaves the caller's registers in a frame right below MSP and touches no protected word |
| `ProcessStarts.ServiceBegins` | spe/spe/src/spm/spm_ipc/svc_call.rs:41-102 | a process begins at its entry point for a call or for initialisation, unprivileged on its own stack within its limit, with a return address that faults; r0 points to the message, which lies there word by word, or is zero |
| `SvcRuns.ExitFindsOrphan` | spe/spe/src/spm_api/api.rs:272-284 | SVC_PROCESS_EXIT resumes the caller from that frame with the exit word in r0 |
| `SvcRuns.ActivationReturns` | spe/spe/src/spm/spm_ipc/process.rs:183-223 | staging, starting, running any body and exiting gives the privileged caller its registers and main stack back, with the exit word in r0, if the words it waits for are not open to the service |
| `SvcRuns.AnswerReturns` | spe/spe/src/spm/spm_ipc/spm_ipc.rs:242-250 | initialisation and call in turn give the SPM its registers but r0, and its main stack, back, and the status it reads is that of the service's exit word, of staging, or of the refusal |
| `SvcRuns.PsaCallRestores` | spe/spe/src/spm_api/api.rs:286-416 | for every tree of nested activations without re-entry, with disjoint RAMs and no waiting word open to a called service, a call gives its caller's full context back and keeps the SPM's part of the main stack; r0 is the status the called service exited with or why it was refused, r1-r3 are the arguments or zeros, and every other protected word is kept |
| `SvcRuns.StoreIsPermitted` | spe/spe/src/spm/spm_ipc/process.rs:122-223 | for any inactive service whose message fits, a call in which it stores any value at any word open to it and exits is among the permitted behaviours |
| `SvcRuns.WaitingStoreBreaks` | spe/spe/src/spm_api/api.rs:272-367 | a service that overwrites any one waiting word, wherever it lies, with another value breaks the call |
| `SvcRuns.FrameStoreBreaks` | spe/spe/src/spm_api/api.rs:327-367 | in the upper half of the caller's own frame such a store gives the caller a wrong r12, lr, pc or xpsr |
| `SvcRuns.CallRestoresExactly` | spe/spe/src/spm_api/api.rs:272-416 | every permitted behaviour of a callable service, whatever is open to it, restores the caller if and only if no waiting word is open: r0-r3 of the caller's frame and the main stack above the call may be |
| `SvcRuns.ActKeeps` | spe/spe/src/spm_api/api.rs:286-367 | no step of a service, which stores in its RAM or where memory is open to it, moves the main stack pointer or changes privilege or stack, nor, if nothing protected is open, a protected word |
| `SvcRuns.ActsKeep` | spe/spe/src/spm_api/api.rs:286-367 | the same for every sequence of steps |
| `SvcRuns.ActsInOrder` | spe/spe/src/spm_api/api.rs:286-367 | what a service does is done in order, each act from where the one before ended |
| `IpcWrites.WritableIsGranted` | libraries/cortex_m/src/mpu.rs:225-313 | after programming, unprivileged code may write an address if and only if a granted request with a writable permission contains it |
| `IpcWrites.OpensExactly` | spe/spe/src/spm/spm_ipc/spm_ipc.rs:130-250 | over all services and all their runs of supervisor and nested calls: the MPU comes to open an address to the called service if and only if a granted own region lets it write there, or a block of an output whose region is not refused contains it; so only its RAM, its writable custom regions and output blocks |
| `IpcWrites.CalleeIsAt` | spe/spe/src/spm/spm_ipc/spm_ipc.rs:100-250 | whenever a called service runs, its connection is the active one, each output as long as it was, empty, or released for good, and the MPU follows it |
| `IpcWrites.CallRestoresUnderMpuExactly` | spe/spe/src/spm_api/api.rs:272-416 | every behaviour of the called service within what the MPU comes to open restores the caller if and only if no waiting word lies in such a region or output block |
| `IpcWrites.OutputAboveStack` | spe/spe/src/spm/spm_ipc/spm_ipc.rs:155-167 | an output at or above the caller's stack pointer reaches the upper half of its frame if and only if its first block starts below the stack pointer, and then its blocks hold pc and xpsr |
| `IpcWrites.OutputBesideFrame` | spe/spe/src/spm/spm_ipc/spm_ipc.rs:155-188 | such an output has no byte in the frame, yet unless its region is refused some permitted behaviour of the called service does not restore the caller |
| `Heaps.LowestFitIsLowest` | spe/spe_services/src/ffi_alloc.rs:26-61 | the reference search returns the lowest offset that fits, and none only if no offset fits |
| `Heaps.FailureIsExact` | spe/spe_services/src/ffi_alloc.rs:26-61 | an allocation fails if and only if the request is empty, no gap anywhere is large enough, or all entries are live |
| `Heaps.SkippingIsSafe` | spe/spe_services/src/ffi_alloc.rs:35-46 | restarting behind a block in the way skips no offset that fits |
| `Heaps.AllocationKeepsSound` | spe/spe_services/src/ffi_alloc.rs:26-61 | live blocks stay 8-aligned, inside the heap and pairwise disjoint |
| `Heaps.AllocationIsFresh` | spe/spe_services/src/ffi_alloc.rs:26-61 | a new block is zero over the request, disjoint from every live block, found by its offset; other live blocks keep their entries, and every other byte is as before |
| `Heaps.FreeingIsExact` | spe/spe_services/src/ffi_alloc.rs:66-85 | freeing removes exactly the block at that offset, any other offset changes nothing, bytes are never touched |
| `Heaps.FreeThenAllocateAgain` | spe/spe_services/src/ffi_alloc.rs:26-85 | after allocating and freeing, the same request finds the same place |
| `Heaps.EverySequenceIsSound` | spe/spe_services/src/ffi_alloc.rs:26-85 | over every sequence of allocations and frees live blocks stay aligned, inside the heap and disjoint |
| `Heaps.EveryHistoryIsSound` | spe/spe_services/src/ffi_alloc.rs:13-85 | so every heap that a program can reach from power-up is sound |
| `Heaps.FreshHeapIsEmpty` | spe/spe_services/src/ffi_alloc.rs:13-61 | at power-up any request up to the size of the heap is placed at its start, and no other |
| `Heaps.LiveBlockSurvives` | spe/spe_services/src/ffi_alloc.rs:26-85 | over every sequence that does not free it and makes no wrapping request, a live block keeps its entry and its bytes |
| `Heaps.RoundingIsExact` | spe/spe_services/src/ffi_alloc.rs:31 | the rounding of the code is rounding up if and only if the request plus seven fits a word, and zero beyond |
| `Heaps.WrappingRequestOverruns` | spe/spe_services/src/ffi_alloc.rs:31-54 | a concrete request whose rounding is zero |
| `Heaps.WrappingRequestClears` | spe/spe_services/src/ffi_alloc.rs:36-54 | with a free entry such a request clears the bytes of every live block |
| `Heaps.Heap.Calloc` | spe/spe_services/src/ffi_alloc.rs:26-61 | for every product that fits a word the restarting search terminates and the new state and pointer are exact: first fit or null, and an overrun of the heap if and only if the rounding wraps and an entry is free |
| `Heaps.Heap.Free` | spe/spe_services/src/ffi_alloc.rs:66-85 | pointers into the heap free the block at their offset; null and foreign pointers are ignored |
| `BootRecords.ParseBootData` | spe/spe_services/src/attest/attest_service.rs:86-126 | the loop terminates on arbitrary bytes and computes the specified result |
| `BootRecords.RecordReadsBack` | spe/spe_services/src/attest/attest_service.rs:100-126 | a serialised record of any entries, stray bytes and padding parses to its last measurement and last signer, or to nothing if either is missing |
| `BootRecords.RecordIsParsed` | spe/spe_services/src/attest/attest_service.rs:100-138 | bytes that are a record of some entries parse to the last measurement and the last signer |
| `BootRecords.ParseIsExact` | spe/spe_services/src/attest/attest_service.rs:86-138 | over all bytes: something is found if and only if they are a record, with magic number, length and entries, that has both; everything else is nothing |
| `BootRecords.ParseReturnsSlices` | spe/spe_services/src/attest/attest_service.rs:100-126 | on any bytes the parser returns only parts of its input |
| `Cbor.HeadReadsBack` | libraries/cose/src/cose_sign1.rs:303-331 | every head decodes to its major type and number and leaves exactly what follows |
| `Cbor.HeadIsShortest` | libraries/cose/src/cose_sign1.rs:303-338 | no other encoding of a head is as short as the one written |
| `Cbor.ExampleHeads` | libraries/cose/src/cose_sign1.rs:303-338 | the heads of 23, 500 and -100 are those of appendix A of RFC 8949 |
| `Cbor.StringReadsBack` | libraries/cose/src/cose_sign1.rs:225-230 | every byte or text string decodes to its content and leaves exactly what follows |
| `Cbor.BytesItemIsInjective` | libraries/cose/src/cose_sign1.rs:234-284 | byte strings are self-delimiting |
| `Cbor.Writer.WriteAll` | spe/spe_services/src/attest/psa_token.rs:200-214 | the cursor refuses exactly what does not fit and otherwise appends; the counter adds lengths, saturating |
| `PsaClaims.EncodeSwComponents` | spe/spe_services/src/attest/psa_token.rs:79-99 | the loop writes an array of component maps, in order, refusing only for lack of room |
| `PsaClaims.EncodeClaimValue` | spe/spe_services/src/attest/psa_token.rs:101-121 | each kind of value is written as its CBOR item |
| `PsaClaims.EncodePayloadTo` | spe/spe_services/src/attest/psa_token.rs:123-133 | the loop writes a map of all claims in order, on the cursor and on the counter alike |
| `PsaClaims.ComponentReadsBack` | spe/spe_services/src/attest/psa_token.rs:79-99 | a component decodes to itself, with or without a measurement type |
| `PsaClaims.ValueReadsBack` | spe/spe_services/src/attest/psa_token.rs:101-121 | every value decodes to itself, non-negative signed values as unsigned |
| `PsaClaims.PayloadReadsBack` | spe/spe_services/src/attest/psa_token.rs:123-139 | decoding an encoded claim list gives the same claims in order and consumes exactly the encoded bytes |
| `Cose.EncodeCborMajorLenHeader` | libraries/cose/src/cose_sign1.rs:303-331 | the branchy header writer produces the shortest-form head of RFC 8949, section 4.2.1 |
| `Cose.EncodePayloadBstr` | libraries/cose/src/cose_sign1.rs:340-344 | the payload as a byte string, refused exactly when it does not fit |
| `Cose.EncodePayloadBstrInPlace` | libraries/cose/src/cose_sign1.rs:353-374 | shifting in place gives the same bytes as encoding out of place, for every length; a refusal leaves the buffer alone |
| `Cose.WrappedPayloadIsValid` | libraries/cose/src/cose_sign1.rs:225-230 | every wrapped payload is accepted by the validator |
| `Cose.BuildSigStructure` | libraries/cose/src/cose_sign1.rs:234-284 | exactly the structure of RFC 9052, section 4.4, in the order that its decoder reads, refused exactly when it does not fit |
| `Cose.SigStructureIsInjective` | libraries/cose/src/cose_sign1.rs:234-284 | the signed bytes determine protected header, external data and payload |
| `TokenReaders.SigStructureReadsBack` | libraries/cose/src/cose_sign1.rs:234-284 | the structure decodes to an array of four, "Signature1", the protected header, then the external data, with exactly the payload item left |
| `Cose.HashSigStructure` | libraries/cose/src/cose_sign1.rs:286-300 | the digest is of that structure, refused only above 700 bytes |
| `Cose.EncodeFromPayloadBstr` | libraries/cose/src/cose_sign1.rs:176-222 | the result is the COSE_Sign1 message of RFC 9052, section 4.2, over a signature of that structure, with each error case exact |
| `TokenReaders.Sign1ReadsBack` | libraries/cose/src/cose_sign1.rs:176-223 | every message decodes to the tag unless omitted, the header that names ES256, the key identifier if there is one, the payload's content unless detached, and the signature, in this order |
| `PsaTokens.EncodePayload` | spe/spe_services/src/attest/psa_token.rs:135-139 | succeeds exactly when the payload fits, and then writes it |
| `PsaTokens.EncodeInitialAttestationToken` | spe/spe_services/src/attest/psa_token.rs:175-198 | payload, in-place wrapping and signing through the 512-byte buffer give exactly the specified token or error |
| `PsaTokens.ComputeInitialAttestationTokenSize` | spe/spe_services/src/attest/psa_token.rs:200-237 | the counting encoder yields the predicted size |
| `PsaTokens.SigningBufferIsNoLimit` | libraries/cose/src/cose_sign1.rs:286-300 | a payload that fits 512 bytes never exceeds the 700-byte signing buffer |
| `PsaTokens.PredictionIsExact` | spe/spe_services/src/attest/psa_token.rs:175-237 | whenever there is a token its length is the predicted size |
| `PsaTokens.PredictionForAnyPayload` | spe/spe_services/src/attest/psa_token.rs:200-237 | for any claims the predicted size is the length of the signed message that would hold them, unless that does not fit a word |
| `PsaTokens.EncodingSucceedsExactly` | spe/spe_services/src/attest/psa_token.rs:175-237 | with working cryptography encoding succeeds if and only if payload plus head fits 512 bytes and the predicted size fits the token buffer |
| `TokenReaders.TokenReadsBack` | spe/spe_services/src/attest/psa_token.rs:175-198 | whenever there is a token its receiver reads one tagged message whose payload decodes to the claims in order and whose signature is that of the hash of exactly this header and payload |
| `TokenReaders.TokenAnswersChallenge` | spe/spe_services/src/attest/attest_service.rs:236-252 | the token that answers a challenge carries it as its first claim, under label 10 |
| `TokenReaders.RequestRefusedExactly` | spe/spe_services/src/attest/attest_service.rs:231-293 | with working cryptography a request is invalid exactly for a challenge that is not 32, 48 or 64 bytes or for more than fifteen further claims; any other refusal is for lack of room |
| `PsaTokens.BuildClaims` | spe/spe_services/src/attest/attest_service.rs:274-293 | nonce first, then the others in order, refused beyond sixteen |
| `PsaTokens.InitialAttestGetToken` | spe/spe_services/src/attest/attest_service.rs:236-252 | the token at the start of the buffer and zeros behind it, or which error |
| `PsaTokens.InitialAttestGetTokenSize` | spe/spe_services/src/attest/attest_service.rs:256-271 | the predicted size for a challenge of that length, or which error |
| `PsaTokens.TokenSizeAgrees` | spe/spe_services/src/attest/attest_service.rs:236-271 | for equal claim lists a token that is produced has the size the size request answers |
| `OnceLocks.StepIsSafe` | spe/spe/src/libs/once_lock.rs:45-97 | every atomic step of any thread keeps: one writer, readers hold a prefix of the complete value, reports consistent, state only forward |
| `OnceLocks.EveryInterleavingIsSafe` | spe/spe/src/libs/once_lock.rs:45-97 | over every interleaving on a new lock at most one set wins and every successful get returns the winner's complete value after it was announced; from any point on the state only moves forward |
| `OnceLocks.FirstSetGoesThrough` | spe/spe/src/libs/once_lock.rs:45-75 | in any reachable state a set on a lock nobody has set goes through with its value; on any other it is refused at once |
| `OnceLocks.GetAfterSetGoesThrough` | spe/spe/src/libs/once_lock.rs:77-97 | a get returns the announced value, and says so at once if there is none yet |
| `OnceLocks.WriterFinishes` | spe/spe/src/libs/once_lock.rs:45-75 | the winner can always finish, whoever else is inside |
| `OnceLocks.ReaderFinishes` | spe/spe/src/libs/once_lock.rs:77-97 | a reader can always finish, with the complete value |
| `Mutexes.StepIsSerial` | spe/spe/src/libs/mutex.rs:33-47 | every atomic step keeps: one closure at a time, value equal to finished closures in sequence plus the updates of the one inside |
| `Mutexes.EveryInterleavingIsSerial` | spe/spe/src/libs/mutex.rs:33-47 | over every interleaving on a new mutex at most one closure runs at a time, and whenever none does the value is a sequential fold of the successful closures |
| `Mutexes.FreeMutexIsTaken` | spe/spe/src/libs/mutex.rs:33-47 | in any reachable state a free mutex is taken by whichever thread tries first and its closure takes effect; a held one refuses and nothing changes |
| `Mutexes.HolderFinishes` | spe/spe/src/libs/mutex.rs:33-47 | the thread inside can always finish and set the mutex free |
| `Mpcs.Mpc.constructor` | chips/musca_b1/src/mpc.rs:41-64 | block size and address range follow from the registers; automatic index increment is off |
| `Mpcs.Mpc.SetNonSecure` | chips/musca_b1/src/mpc.rs:82-129 | accepts exactly aligned ranges inside the memory; the loop with its cached word leaves the table as marking the blocks of the range does |
| `Mpcs.SetRangeBits` | chips/musca_b1/src/mpc.rs:109-128 | bit k ends up set if and only if it was set before or block k is in the range |
| `Mpcs.AcceptedBlocks` | chips/musca_b1/src/mpc.rs:84-106 | an accepted range is a non-empty run of whole blocks inside the table |
| `Mpcs.AcceptsExactly` | chips/musca_b1/src/mpc.rs:84-106 | a request is accepted exactly for a run of whole blocks, counted from address zero, all of whose addresses belong to the memory |
| `Mpcs.ExposedAddresses` | chips/musca_b1/src/mpc.rs:105-128 | an address becomes non-secure if and only if it was or lies in the requested range shifted down by the misalignment of the memory base |
| `Mpcs.RequestedAddressesExactly` | chips/musca_b1/src/mpc.rs:84-106 | exactly the requested addresses are covered if and only if the memory base is a multiple of the block size |
| `Mpcs.MisalignedBaseShifts` | chips/musca_b1/src/mpc.rs:84-106 | a concrete accepted request with a misaligned base that opens sixteen bytes below it and leaves its last sixteen secure |
| `Ppcs.Ppc.SetPermissions` | chips/psc3/src/ppc.rs:350-374 | the three read-modify-writes set exactly one bit in each attribute array |
| `Ppcs.Ppc.GetPermissions` | chips/psc3/src/ppc.rs:380-391 | reads the region's three bits |
| `Ppcs.Ppc.SetProtectionContext` | chips/psc3/src/ppc.rs:393-401 | the read-modify-write replaces exactly the region's byte |
| `Ppcs.WithBitReads` | chips/psc3/src/ppc.rs:350-391 | a written permission is read back and every other region keeps its own |
| `Ppcs.WithByteReads` | chips/psc3/src/ppc.rs:393-401 | a written protection context is read back and every other region keeps its own |
| `Ppcs.WrittenBits` | chips/psc3/src/ppc.rs:350-401 | on the registers exactly bit r mod 32 of attribute word r / 32, and byte r mod 4 of context word r / 4, change |
| `Ppcs.Ppc.ConfigureBulkNsAttrs` | chips/psc3/src/ppc.rs:409-416 | both tables replace the first seven words and leave the rest |
| `Ppcs.Ppc.ConfigureBulkPcMasks` | chips/psc3/src/ppc.rs:420-424 | the table replaces the first 56 words and leaves the rest |
| `Ppcs.Ppc.SetPcMasksRange` | chips/psc3/src/ppc.rs:429-447 | the nested loops rewrite exactly the registers from start / 4 up to the rounded-up end |
| `Ppcs.RangeIsMasked` | chips/psc3/src/ppc.rs:426-447 | every region of the range gets the mask, or zero if excluded, whatever the alignment |
| `Ppcs.RangeLeavesOthersExactly` | chips/psc3/src/ppc.rs:426-447 | the other regions below 222 keep their contexts from every state if and only if no register of a region is rewritten, or the range starts at a multiple of four and ends at one or at or past the last region |
| `Ppcs.ContainsRegion` | chips/psc3/src/security.rs:33-42 | the linear search decides membership |
| `Ppcs.SetRegionBit` | chips/psc3/src/security.rs:44-51 | sets the region's bit only; identifiers from 222 on change nothing |
| `Ppcs.ClearRegionBit` | chips/psc3/src/security.rs:53-60 | clears the region's bit only; identifiers from 222 on change nothing |
| `Ppcs.BuildFullNsAttrMask` | chips/psc3/src/security.rs:62-70 | bits 0 to 221 set, the two unused bits clear |
| `Ppcs.BuildNsAttrs` | chips/psc3/src/security.rs:72-82 | for any list: a bit is set exactly for regions not in it |
| `Ppcs.BuildNsPAttrs` | chips/psc3/src/security.rs:84-92 | for any list: a bit is set exactly for regions in it |
| `Ppcs.BuildPcMasks` | chips/psc3/src/security.rs:94-121 | for any list: full context exactly for regions not in it, unused slots zero |
| `Ppcs.BulkTablesMean` | chips/psc3/src/security.rs:62-92 | with the tables written, the non-secure bit is set for every region that is not secure-only and the unprivileged bit for the listed ones; two entries are clear and the rest as before |
| `Ppcs.BulkContextsMean` | chips/psc3/src/security.rs:94-121 | with the table written, all contexts are set for every region that is not excluded and none for the others; two entries are clear and the rest as before |
| `Ppcs.PerRegionBitsRead` | chips/psc3/src/ppc.rs:350-374 | writing regions one at a time gives each its value and leaves the others |
| `Ppcs.PerRegionBytesRead` | chips/psc3/src/ppc.rs:393-401 | the same for protection contexts |
| `Ppcs.BulkBitsAgree` | chips/psc3/src/security.rs:62-92 | from any state, bulk and per-region attributes agree on all 222 regions and beyond the table; only the two unused bits differ |
| `Ppcs.BulkContextsAgree` | chips/psc3/src/security.rs:94-121 | from any state, bulk and per-region contexts agree on all 222 regions and beyond the table; only the two unused slots differ |
| `Ppcs.BulkContextsAreTheRange` | chips/psc3/src/security.rs:94-121 | the precomputed table written in bulk equals the range setter over 0 to 222 with a full mask, on all registers |
| `Words.PutSlotReads` | chips/psc3/src/ppc.rs:393-401 | masking and shifting one byte into a word reads back and leaves the other three |

## Left out

- SvcRuns.PsaCallRestores: r4 to r11 are not part of the machine, because the handler branches neither save nor restore them and the compiled code around them is arbitrary; `psa_call_thunk` is a function on register values rather than an instruction sequence.
- SvcRuns.CallRestoresExactly: of the calls that the called service makes in turn it is asked that nothing that waits is open to them; each is a call of its own to which the lemma applies. The initialisation that runs inside a call is the called service's own.
- IpcWrites.CallRestoresUnderMpuExactly: an address counts as open over the whole call if the MPU opens it at some point; that the service maps the vector first is not a step of the machine with stacks. Regions and widened vectors do not pass the end of the address space. Memory is words: a byte that is stored is its word.
- SvcRuns.ActivationReturns: that no service is active twice is a precondition; recursive activation is not refused by the code.
- SvcMachines.Core.SvcPsaCall: which argument words are copied when the caller's frame overlaps the 48 bytes below the main stack pointer is not said; on that stack it never does.
- SvcMachines.Core.SvcPsaCallReturn: likewise for a frame that overlaps the 48 bytes that are dropped.
- Interrupts during a handler branch, floating-point stacking, exception-frame alignment padding and stack-limit faults: stack pointers are 8-byte aligned and frames fit.
- IpcProtection.EveryRunFollows: for services that use supervisor calls only; RunFollowsExactly covers closures.
- IpcProtection.MpuGrantsOnlyEntitled: assumes that widening a vector does not pass the end of the address space; sums wrap as in a release build otherwise.
- IpcReaches.LentVectorIsReached: for vectors and custom regions that do not pass the end of the address space; sums wrap otherwise.
- Access and execute bits of MPU permissions are carried as the source pairs them; nothing is claimed about what the names promise.
- The busy result of the SPM's own mutex: a single-threaded run never holds it across a step; the mutex itself is modelled apart.
- Processes without vectors (`get_vectors` returning none): every modelled process has them.
- SpmFns.SpmFn.Call: the platform's dispatch to a service is the parameter that says what the service does and returns.
- IpcDispatcher.SpmIpc.HandleSvc: what a client's pointers lead to and how the called service behaves are parameters; a missing SPM instance is not modelled.
- Connections.CallFromSlices: `has_real_permission` is an arbitrary predicate; the written length is never copied back to the client's vector, in the code as in the model.
- VectorPaths.PathsAgree: reads and writes of the lent memory itself are not modelled, only which slices are lent and what is committed.
- Heaps.Heap.Calloc: products that overflow a word are excluded, as the source asks of its callers; of a write beyond the heap only the part inside it is modelled, and `overrun` says that there is more.
- PsaTokens.TokenSizeAgrees: stated for equal claim lists; the two request handlers collect different claims.
- PsaClaims.PayloadReadsBack: texts are their bytes, UTF-8 validity is not checked; a claim list of the source has at most sixteen entries, the law holds for any.
- Cose.EncodeFromPayloadBstr: hashing and signing are uninterpreted functions that may fail; validation decodes definite-length strings only, while the decoder of the source also knows indefinite lengths.
- Platform claim collection, vector handling of the attestation request handlers and `has_exactly_one_iovec`: they only route data.
- OnceLocks.EveryInterleavingIsSafe: atomics are sequentially consistent and `Drop` is not modelled; the value is a fixed number of words.
- Mutexes.EveryInterleavingIsSerial: atomics are sequentially consistent; a closure that panics is not modelled.
- Mpcs.Mpc.SetNonSecure: the driver's panics are a false result; the address range of the memory fits 32 bits.
- Ppcs.Ppc.SetPcMasksRange: writing past the last register, which panics in the source, is excluded.
- `PpcRegion` is its number below 222; locking, response configuration, SAU setup and the policy lists themselves are not modelled.
- Drivers, boards, linker and build scripts, non-secure entry veneers, the test client and the Tock parts: input, output and plumbing.
