# A verified model of the Hyper-V control server

The server drives Hyper-V virtual machines for several agents at once. Most of it composes
PowerShell; this project models the parts that carry a protocol, state or arithmetic, and
proves what they promise. `dafny verify dfyconfig.toml` checks everything.

## What is modelled

**Leases and fencing** (`LeaseModel`, `LeaseInvariant`, `LeaseExclusion`, `LeaseFencing`,
`LeaseCalls`, `LeaseStore`, `LeaseOutcomes`). The durable lease table is a sequence of rows with a map of
fencing counters and a clock; two histories (every row ever inserted, every lease id ever
written) survive deletions and are what "ever" refers to. The protocol is a transition
system: acquire and the call rows use a clock read made before their transaction, renew
reads the clock inside, release checks the owner in one step and deletes in another, the
sweep may come at any time. `LeaseStore.Table` is the same table updated in place, loop by
loop, each method proved to compute the operation of `LeaseModel`; `LeaseOutcomes` says row by row
what each operation does and what its caller is told.

**Console engine** (`SettleWait`, `Scancodes`, `Chunking`, `SequencePlan`, `Sequence`,
`SequenceScript`, `SequenceAgreement`, `ConsoleEffects`). The settle wait exists four times in the program,
twice in process and twice in scripts, whose loops are alike; all are proved against one
declarative promise. Key combos are encoded to PS/2 set-1 bytes and read back by an E0-aware
decoder. Scan codes are delivered in two levels of windows. A batch of steps is validated to
a plan, which a direct interpreter (`Sequence`) and one unrolled, guarded script
(`SequenceScript`) both run, down to the single method calls on keyboard, synthetic mouse
and PS/2 mouse. The interpreter looks up its device and reads the display at every step; the
script binds its devices and reads the display once, before its first block, falls back to
the PS/2 mouse, and carries text payloads and code arrays in two ways each. A wait step is
answered by what it gets to see, poll by poll, and each transport runs its own wait on that;
a pointer step is placed by each transport's own arithmetic. `SequenceAgreement` says
exactly when the two do, and report, the same, and `ConsoleEffects` what their calls do to a
console: what it has received, which buttons are down, where it points.

**Guest jobs** (`JobModel`, `JobRegistry`, `JobOutcomes`). A capped registry over a dictionary and durable
rows, with eviction, compensation when a store call fails, and the life of a credential.
`JobRegistry.Registry` is updated in place and proved against `JobModel`, where the
properties of runs are proved; `JobOutcomes` says what each caller is told, what is written
and what survives a restart.

**Pooled execution** (`PooledExec`), **truncation** (`Utf8`, section 3 of RFC 3629),
**transfer** (`Base64`, section 4 of RFC 4648, and `Transfer`) and **directory creation**
(`DirTracker`, on a disk that others write to between any two of our operations).

`Common` holds the shared result types.

## Where the code and its documentation differ

- A superseded fencing token is documented as refused from then on (README.md:627-631), and
  `fence_last_explicit` as the highest explicit grant ever made. The query takes the maximum
  over the explicit rows *still stored* (src/hyperv_mcp/statestore.py:1028-1042), so a token
  superseded by the same agent's newer lease is accepted again once that lease is released
  or swept. `LeaseFencing.SupersededTokenReturns` is a run that shows it,
  `SupersededUsableIff` says exactly when it happens, and `TakeoverIsFinal` proves the
  documented promise for every takeover by somebody else.
- A call row's heartbeat is described as re-arming the row every third of its time to live;
  the code starts a `threading.Timer`, which fires once (src/hyperv_mcp/vmlocks.py:473-492).
  Heartbeats are steps of the model and may come at any time. Call-row exclusion is proved
  for runs whose heartbeats find their row alive. `LeaseCalls.HeartbeatKeepsApartIff`
  says what a late one does, and `LateHeartbeat` is a run in which it leaves two writers live.
- The two transports of a sequence are presented as one contract
  (src/hyperv_mcp/console.py:3631-3635). The script holds on to the display and the devices
  it found at its start (395-398, 3509-3520) and accepts a PS/2 mouse (382-393); the
  interpreter looks both up at each step (3698-3720, src/hyperv_mcp/wmiconsole.py:487-490 and
  520-542) and knows no PS/2 mouse. `SequenceAgreement.ScriptCallsTheSameIff` proves that
  they call the virtual machine alike exactly when every attempted step finds what the script
  bound; `DisplayGrows` and `Ps2Scrolls` are inputs at which they part.
- Their replies differ further. A device missing at the start makes the whole script raise
  (src/hyperv_mcp/console.py:3516) where the interpreter reports a failed step; preconditions
  are checked in opposite orders (3534-3566 and 3645-3664), and a refusal over the frame
  digest carries the boot epoch only in process (3658-3664 and 3877-3879); the script's
  reader wants at least one character of error text (3602-3604), and takes no record at all
  for success (3900-3901); only the interpreter reports where a pointer step landed
  (3708-3717); errors are worded by the transport; and the waits differ as the next item
  says. `SequenceAgreement.ScriptRepliesTheSameIff` is the exact condition for equal replies.
- Out of time at the top of its loop, the in-process wait of a sequence says `deadline` even
  where the other waits say `unchanged` (src/hyperv_mcp/console.py:3739-3741):
  `SettleWait.SequenceWaitAgreesIff`; on the trace of `StillWaitParts` they part.
- A comment says that the exact token match cannot pick a call row
  (src/hyperv_mcp/leases.py:499-503). It can: a call row that adopted a lease's id carries a
  later token, which `authorize` accepts under that id although acquire never issued it
  (`LeaseFencing.CallTokenAccepted`). `LeaseFencing.AcceptedIff` says for every presented
  lease and token when it is accepted, and `UniqueCapability` what remains unique.
- The count of delivered codes in a failed leg's message leaves out the failing leg, which
  may have delivered anything up to all of its windows: its process may run out of time, or
  its answer fail a check, after the last one (src/hyperv_mcp/console.py:2388-2400).
- The job placeholder in memory carries no VM identity, although the comment at the
  reservation's call site says the gate can see it (src/hyperv_mcp/guestjobs.py:365-369 and 762-765).
- While the job store cannot be read, an id that memory holds for somebody else is still
  answered "unknown", and an id nobody holds reports the store's failure
  (src/hyperv_mcp/guestjobs.py:485-511): `JobModel.LookupHidesOthersIff`,
  and `BrokenStoreTells` is a state that shows it.
- Directories that a get creates are said to be pruned again if the transfer fails
  (src/hyperv_mcp/filetransfer.py:848-851). A get can still fail after the file was moved into
  place, when the guest is asked for its size (893-895): then the destination file and its
  directories stay. `DirTracker.Disk.FailedGet` proves that on a disk left alone this is the
  only exception.
- "Never twice" for a pooled guest script rests on abandoned attempts not having entered the
  guest. That includes an attempt abandoned only because its timing report raised
  (src/hyperv_mcp/guestexec.py:438-440): `PooledExec.RunsAtMostOnceIff`.

## Model

| member | source | states |
|---|---|---|
| LeaseExclusion.ExplicitExclusion | src/hyperv_mcp/leases.py:249-269 | in every state of every run, two live explicit rows of different leases never conflict, although acquire's clock read may be older than its transaction |
| LeaseExclusion.LifecycleExcludesOthers | src/hyperv_mcp/leases.py:266-269 | while a lifecycle lease is live, any live lease on that VM is the same lease or the same attributed agent's |
| LeaseExclusion.AcquireGrantsIff | src/hyperv_mcp/leases.py:293-365 | granted exactly when scopes and ttl are valid and no live foreign explicit row is incompatible with any wanted scope; a refusal changes nothing at all, a grant appends one row per distinct scope |
| LeaseOutcomes.GrantOutcome | src/hyperv_mcp/leases.py:293-358 | a grant stores, for each distinct scope in order, a row with the next token of its VM and scope and an expiry of the ttl asked for, or the default, from the clock read; nothing else changes; a request is invalid exactly when a scope or the ttl is |
| LeaseOutcomes.RefusalOutcome | src/hyperv_mcp/leases.py:236-288 | a well-formed request is refused exactly when something stands in the way of a wanted scope; the refusal tells of all that does for the first such scope: first holder, scopes, last expiry, whole milliseconds left |
| LeaseInvariant.RunKeepsInv | src/hyperv_mcp/leases.py:293-449 | the protocol invariant holds in every reachable state: rows come from logged grants, tokens increase in commit order, an explicit row is over before any conflicting later grant began |
| LeaseInvariant.RetimingKeepsInv | src/hyperv_mcp/leases.py:410-436 | moving expiries is safe when only live rows or call rows move: renew's touch of live rows, and heartbeats |
| LeaseInvariant.AcquireKeepsInv | src/hyperv_mcp/leases.py:318-358 | a grant decided on a clock read older than the store's clock still keeps the invariant |
| LeaseInvariant.LogGrows | src/hyperv_mcp/leases.py:342-352 | history is append-only along a run |
| LeaseModel.LatestExpiry | src/hyperv_mcp/leases.py:276-276 | the refusal's expiry is attained by a blocking row and bounds them all |
| LeaseModel.DedupeIsFirstOccurrences | src/hyperv_mcp/leases.py:309-312 | the wanted scopes are exactly the requested ones, each once, in the order of their first occurrences |
| LeaseModel.StoredMax | src/hyperv_mcp/statestore.py:1028-1042 | the greatest token among the explicit rows stored for a VM and scope, 0 when there is none |
| LeaseFencing.TokensAreConsecutive | src/hyperv_mcp/statestore.py:1073-1101 | in commit order the tokens of a VM and scope are 1, 2, 3, ..., explicit and call rows together: refusals consume none, deletions return none |
| LeaseFencing.AuthorizeIff | src/hyperv_mcp/leases.py:474-524 | a lease's own id and token are accepted exactly while its row is live, is the newest explicit row stored for its VM and scope, and the caller owns the lease and names its VM |
| LeaseOutcomes.AuthorizeOutcome | src/hyperv_mcp/leases.py:474-524 | every answer to a presented token, in order: unknown, not owned, expired, a conflict that tells what the lease covers, fenced exactly when a stored explicit row outranks the token or no covering row carries it, a conflict for another VM, else the first covering row that carries it |
| LeaseFencing.AuthorizeSound | src/hyperv_mcp/leases.py:489-524 | whatever is accepted is a live row of the presented lease, scope and token, held by the caller |
| LeaseFencing.UniqueCapability | src/hyperv_mcp/leases.py:489-524 | in every reachable state at most one (lease, token, agent) is accepted for an explicit row of a VM and scope; any other token accepted there is a call row's, and a later one, unless its lease's first row in the scope is on another VM |
| LeaseFencing.AcceptedIff | src/hyperv_mcp/leases.py:474-524 | any row's lease and token, explicit or call, are accepted exactly while the row is live and first to carry the token, no explicit row outranks the token, and the caller is entitled |
| LeaseFencing.CallTokenAccepted | src/hyperv_mcp/leases.py:499-510 | a run in which a lease has two accepted tokens at once, the second that of a call row |
| LeaseFencing.TakeoverIsFinal | src/hyperv_mcp/leases.py:495-513 | a token superseded by another principal's grant is never live and never accepted again, in any later state |
| LeaseFencing.SupersededUsableIff | src/hyperv_mcp/statestore.py:1028-1060 | a superseded token is accepted exactly when its row is live and every superseding grant has left the table, and then all of those were the same agent's |
| LeaseFencing.SupersededTokenReturns | src/hyperv_mcp/statestore.py:1028-1042 | a run in which a superseded token is refused and, after a release, accepted |
| LeaseFencing.ExplicitRowLeads | src/hyperv_mcp/leases.py:490-494 | the first live row covering a scope under a lease is the lease's explicit row, never a call row that adopted its id |
| LeaseCalls.CallExclusion | src/hyperv_mcp/leases.py:594-646 | in every run whose heartbeats find their row alive, two live call rows of different calls and different or unattributed principals on one VM are both reads |
| LeaseCalls.LeaseExcludesLaterCalls | src/hyperv_mcp/leases.py:630-643 | in every run, a call row taken after a lease is never live beside that lease's live row unless they are compatible |
| LeaseCalls.BeginCallOutcome | src/hyperv_mcp/leases.py:594-681 | a call row is inserted, with the next token, exactly when no live row of another principal and call on the VM is a call where either writes, or a lease whose scope rules its own out; the refusal is busy exactly when only calls are in the way, and else tells of all that is; a refusal changes nothing |
| LeaseCalls.GateAgreesWithReadCall | src/hyperv_mcp/leases.py:537-568 | the gate for unleased calls passes exactly when a read call under an id no row carries would be let in; its refusal tells of all that is in such a call's way |
| LeaseCalls.HeartbeatKeepsApartIff | src/hyperv_mcp/leases.py:649-652 | a heartbeat, early or late, keeps live calls apart exactly when no live call conflicts with the row it re-arms; one that finds its row alive always does |
| LeaseCalls.LateHeartbeat | src/hyperv_mcp/leases.py:649-652 | a run from the empty table in which a heartbeat finds its row lapsed and replaced, and leaves two conflicting live calls of different agents |
| LeaseStore.Table.Acquire | src/hyperv_mcp/leases.py:309-365 | probing every scope before bumping any counter, on the table in place, computes the model's acquire |
| LeaseStore.Table.Renew | src/hyperv_mcp/leases.py:410-436 | touching the owned rows one by one extends exactly the live rows of the lease |
| LeaseOutcomes.RenewOutcome | src/hyperv_mcp/leases.py:410-436 | renewing succeeds exactly for the owner of a lease with live rows; every live row under the id then expires the first one's own ttl from now, every other row and field is as it was, and the expiry told is the one stored; a refusal changes nothing and is unknown, not owned or expired exactly as the rows say |
| LeaseStore.Table.Release | src/hyperv_mcp/leases.py:439-449 | deletes the lease's explicit rows and no others, or refuses and deletes nothing |
| LeaseOutcomes.ReleaseOutcome | src/hyperv_mcp/leases.py:439-449 | releasing succeeds exactly for the owner, of live or expired rows, and deletes just the lease's explicit rows; a foreign release is refused and deletes nothing |
| LeaseOutcomes.OwnershipIff | src/hyperv_mcp/leases.py:368-389 | unknown exactly when no row carries the id; not owned exactly when one of the rows that decide, the live ones or else the expired ones, is somebody else's |
| LeaseStore.Table.BeginCall | src/hyperv_mcp/leases.py:594-646 | re-check, bump and insert in place compute the model's call row |
| LeaseStore.Table.TouchCall | src/hyperv_mcp/leases.py:649-652 | re-arms one row, whatever its expiry, and nothing else |
| LeaseStore.Table.EndCall | src/hyperv_mcp/leases.py:655-657 | deletes by key, in place, whatever row carries it |
| LeaseCalls.EndCallRemovesOne | src/hyperv_mcp/statestore.py:1062-1071 | deleting by a stored row's key removes that one row and keeps all others in order |
| LeaseOutcomes.DeleteStepsOutcome | src/hyperv_mcp/statestore.py:1062-1071 | release's delete takes just the explicit rows of the lease, a call's end just the row with its key |
| LeaseOutcomes.SweepAndTouchOutcome | src/hyperv_mcp/leases.py:649-652 | the sweep deletes exactly what expired before its horizon; a heartbeat moves exactly the row it names, to its ttl from the clock it read |
| LeaseStore.Table.Probe | src/hyperv_mcp/leases.py:330-341 | the probing loop finds the refusal of the first blocked scope and changes nothing |
| LeaseStore.Table.InsertEach | src/hyperv_mcp/leases.py:342-358 | one bump and one row per scope, in order |
| LeaseStore.Table.Owned | src/hyperv_mcp/leases.py:368-389 | the loop over the table answers as the ownership rule does |
| SettleWait.WaitInProcess | src/hyperv_mcp/console.py:2874-2924 | on every trace of frames, clocks and failing captures the in-process loop ends as promised: stable at the first settled poll, unchanged only when frames were seen and all equal the baseline, broken off at a capture that raises, else deadline |
| SettleWait.WaitFolded | src/hyperv_mcp/console.py:698-763 | the scripts' loop, alone or as a step of a sequence (lines 3355-3397), opens its window differently and ends as promised too |
| SettleWait.WaitInSequence | src/hyperv_mcp/console.py:3726-3772 | the sequence's in-process loop ends as promised, but says deadline whatever it saw when time is up at the top of the loop |
| SettleWait.MeetsIsFunctional | src/hyperv_mcp/console.py:2890-2924 | the promise leaves one outcome per trace, so the loops that keep it agree on reason, poll count and last digest |
| SettleWait.CallerGets | src/hyperv_mcp/console.py:2890-2924 | in the caller's milliseconds: stable exactly at the first poll whose frame has stood for the quiet window; no poll begins after the time is over; giving up takes the end of the time or as many polls as the interval allows, and says unchanged exactly when every frame was the baseline |
| SettleWait.SequenceWaitAgreesIff | src/hyperv_mcp/console.py:3739-3741 | the sequence's in-process wait agrees with the others exactly unless time ran out at the top of the loop after polls that all equalled the baseline; polls and digest always agree |
| SettleWait.StillWaitParts | src/hyperv_mcp/console.py:3739-3741 | a trace of nothing but the baseline on which the sequence's in-process wait says deadline and the others unchanged |
| SettleWait.SomeOutcome | src/hyperv_mcp/console.py:2902-2924 | the promise can be kept on every trace |
| SettleWait.StableMeansQuiet | src/hyperv_mcp/console.py:2905-2912 | a stable wait saw a move and at least one later poll, with one and the same frame throughout the quiet window |
| Scancodes.ComboRoundTrip | src/hyperv_mcp/console.py:1830-1864 | decoding a combo's bytes gives modifier downs in order, each key tapped, modifier ups in reverse |
| Scancodes.ComboLeavesNothingHeld | src/hyperv_mcp/console.py:1839-1864 | replaying a combo releases every key it pressed, whatever was held before |
| Scancodes.ModifiersHeldWhileTapping | src/hyperv_mcp/console.py:1830-1836 | when a combo taps its i-th other key, exactly the combo's modifiers are down |
| Scancodes.KeyComboIff | src/hyperv_mcp/console.py:1808-1836 | a combo is encoded exactly when some key is not a modifier and every name is in the table |
| Scancodes.NamesAreFolded | src/hyperv_mcp/console.py:1808-1811 | a key is found under its name in any case and with any space around it |
| Scancodes.SetOneIsGood | src/hyperv_mcp/console.py:213-306 | every table entry is one make byte and its break byte, and the modifier names are exactly the names of the modifier keys |
| Scancodes.EncodeCombo | src/hyperv_mcp/console.py:1839-1864 | the three loops emit the combo's groups in order |
| Chunking.TwoLevelsAgreeIff | src/hyperv_mcp/console.py:2379-2402 | cutting in two levels gives the windows of cutting once exactly when a slice is a whole number of windows, or there is only one slice |
| Chunking.SendByScripts | src/hyperv_mcp/console.py:2365-2405 | delivery by slices, each in its own process, is honest: what was delivered is a prefix of the one-level windows, the reported chunks are those delivered, a failed leg's sent is what the earlier legs completed, its count of legs how many there are, and the leg itself delivered a prefix of its windows, all of them exactly when it failed only afterwards |
| Chunking.SendInProcess | src/hyperv_mcp/console.py:2336-2364 | so is delivery window by window in process |
| Chunking.RunScript | src/hyperv_mcp/console.py:2408-2437 | the script's index arithmetic sends exactly the windows of its slice, up to the first one refused |
| Chunking.WindowAt | src/hyperv_mcp/console.py:2417-2420 | the i-th window is the slice from i times 64, short only at the end |
| SequencePlan.Validate | src/hyperv_mcp/console.py:3105-3252 | a batch becomes a plan exactly when it has 1 to 50 steps, each sound on its own, whose waits together fit the call; every step of the plan is fit to run; a rejection names the first step to blame |
| SequencePlan.NormalFits | src/hyperv_mcp/console.py:3123-3246 | one normalised step holds only bytes, ASCII, real buttons and a quiet window that can be observed, and is charged exactly the wait it will make |
| SequencePlan.NormalIff | src/hyperv_mcp/console.py:3123-3246 | exactly the acceptable raw steps become plan steps: known keys, ASCII text, bytes, a real button, a whole place, a quiet window shorter than its wait |
| SequencePlan.NormalIsFaithful | src/hyperv_mcp/console.py:3123-3246 | the plan step asks for what the raw step did: the same text, codes, place, button and direction, the same window, and codes that decode to the modifiers going down, the other keys tapped, the modifiers coming up |
| SequencePlan.PlanIsFaithful | src/hyperv_mcp/console.py:3105-3252 | so does every step of a validated plan |
| SequencePlan.WaitsAddUp | src/hyperv_mcp/console.py:3215-3222 | the budget counts every wait's own time, once |
| SequencePlan.ComboIsBytes | src/hyperv_mcp/console.py:3124-3146 | every combo of known keys is a non-empty string of bytes |
| SequencePlan.BlamedHasNoPlan | src/hyperv_mcp/console.py:3215-3222 | stopping at the first step to blame refuses nothing that could have run |
| Sequence.Backend.RunSteps | src/hyperv_mcp/console.py:3665-3686 | the direct interpreter reports one record a step, in order, successes then at most one failure then skips, and acts up to the failing step |
| Sequence.Backend.Perform | src/hyperv_mcp/console.py:3698-3772 | one step in process: a pointer placed on the display as it is then, the device looked up then, call after call until one goes wrong; a wait run by its own loop |
| ConsoleEffects.StepDoes | src/hyperv_mcp/console.py:3698-3725 | on either transport a step that goes right leaves the console as it was but for its own effect: exactly its codes or its text received, its button down if and only if it says so, its wheel turned, its click at its own place |
| ConsoleEffects.DirectRunDoes | src/hyperv_mcp/console.py:3665-3686 | in process every step before the first that fails did that, in order |
| ConsoleEffects.ScriptRunDoes | src/hyperv_mcp/console.py:3255-3419 | so it did in a script that neither threw nor refused, whichever arrays it compacts and however its payloads travel |
| ConsoleEffects.StepReported | src/hyperv_mcp/console.py:3665-3684 | a step goes right exactly when nothing is in its way, and its record says what happened: where it pointed, how its wait ended and on which frame, or in whose words it failed |
| ConsoleEffects.ScriptStepTells | src/hyperv_mcp/console.py:3398-3419 | the same of the script's block |
| ConsoleEffects.ScriptCallsWhatIsThere | src/hyperv_mcp/console.py:3501-3518 | a script throws exactly when a device its steps need is missing at its start, calls only devices that were there, and the PS/2 mouse only without a synthetic one |
| ConsoleEffects.PointsAtNearest | src/hyperv_mcp/console.py:3306-3316 | both transports point at the place on the display nearest to the one meant, scaled from the caller's frame if its size is given, ties to even |
| SequenceAgreement.CallsAgreeIff | src/hyperv_mcp/console.py:3268-3397 | on one step the transports make the same calls, a repeated move aside, exactly when what the script bound at its start is what the step finds: keyboard, synthetic mouse, place; and then they go right or wrong together |
| Sequence.Backend.Run | src/hyperv_mcp/console.py:3638-3695 | nothing is delivered when a precondition misses; the boot epoch is reported first |
| Sequence.Report | src/hyperv_mcp/console.py:3668-3684 | one record a step with its own index: good before the first failure, failed there, skipped after it |
| SequenceAgreement.ScriptCallsTheSameIff | src/hyperv_mcp/console.py:3255-3419 | for every plan, every machine whose answers may depend on the steps so far, every set of compacted arrays and both payload transports: the calls are the same step by step exactly when every attempted step finds what the script bound, or, if the script threw at its start, the interpreter comes to no call; a missed precondition stops both |
| SequenceAgreement.ScriptCallsTheSame | src/hyperv_mcp/console.py:3255-3419 | they are the same for every plan while the display keeps its size and the keyboard and the synthetic mouse stay |
| SequenceAgreement.DisplayGrows | src/hyperv_mcp/console.py:3306-3316 | a display that grows after the first step: the script clicks where the old size says, the interpreter where the new one does |
| SequenceAgreement.Ps2Scrolls | src/hyperv_mcp/console.py:3509-3518 | with only a PS/2 mouse the script scrolls and the interpreter fails |
| SequenceAgreement.ScriptRepliesTheSameIff | src/hyperv_mcp/console.py:3597-3623 | the whole replies are equal exactly when no device the plan needs is missing at the start, the frame digest did not miss, and, if the boot epoch did not either, every attempted step is reported alike, or a plan's only step failed in the script without a word and succeeded in process |
| SequenceAgreement.RecordsAgreeIff | src/hyperv_mcp/console.py:3665-3684 | one step is reported alike exactly when both transports say the same of what went wrong, and something, or both succeed on a step that is no pointer and no wait that ran out at the top of its loop with nothing but baseline frames |
| SequenceAgreement.AllSayTheSameIff | src/hyperv_mcp/console.py:3597-3623 | the same over the whole report, before it is read back |
| SequenceAgreement.StillWaitReports | src/hyperv_mcp/console.py:3739-3741 | a plan of one wait on which the replies differ |
| SequenceScript.PreparedIsStep | src/hyperv_mcp/console.py:3268-3299 | a block hands over its own step whether its codes stand literally or as a base64 seed, and whether its text is read from input or from the payload array |
| SequenceScript.PastBlockReaches | src/hyperv_mcp/console.py:3406-3419 | a guarded block and the payload counter after it keep script and plan in step, run or skipped |
| SequenceScript.ScriptEnds | src/hyperv_mcp/console.py:3500-3582 | a script throws when a device it binds is missing, else refuses over the frame digest, else over the boot epoch, each before any call; else it goes through all its blocks |
| SequenceScript.ParseLines | src/hyperv_mcp/console.py:3597-3623 | reading the script's output gives its report, less the record of a failure without a message |
| SequenceScript.Compaction | src/hyperv_mcp/console.py:3582-3594 | the arrays compacted are the longest, no more of them than needed, until the script fits or none is left |
| JobModel.RoomIff | src/hyperv_mcp/guestjobs.py:348-363 | after eviction there is room exactly when the jobs that cannot be evicted leave some |
| JobOutcomes.EvictionOutcome | src/hyperv_mcp/guestjobs.py:326-363 | eviction drops only stopped or orphaned jobs, none that started after one it keeps, and no more than it must to leave 127 |
| JobModel.FrontIsOldest | src/hyperv_mcp/guestjobs.py:350-351 | the front of the queue is exactly as many of the oldest evictable jobs as are needed and there |
| JobModel.ReservedFits | src/hyperv_mcp/guestjobs.py:340-376 | a reservation puts the job in both views, drops none but the evicted, and stays within 128 |
| JobModel.ReservedKeepsLive | src/hyperv_mcp/guestjobs.py:326-339 | a job that memory has not stopped outlives every reservation unchanged, whatever its row says |
| JobModel.EvictedHoldNoCredential | src/hyperv_mcp/guestjobs.py:351-358 | eviction destroys no credential in use |
| JobModel.LookupHidesOthersIff | src/hyperv_mcp/guestjobs.py:180-214 | what a principal finds depends on its own jobs alone, exactly unless the store cannot be read and memory holds the id for somebody else |
| JobOutcomes.LookupOutcome | src/hyperv_mcp/guestjobs.py:467-519 | what is found and what each refusal means: an entry the caller may see, or a job that only its own row remembers, restored as that row tells it, stopped if it says so; and what is cached |
| JobModel.BrokenStoreTells | src/hyperv_mcp/guestjobs.py:485-511 | a state in which the answer to a principal gives away, with the store unreadable, that an id is held by somebody else |
| JobModel.StopDependsOnOwn | src/hyperv_mcp/guestjobs.py:922-1073 | the answer to a stop, and what it leaves of the caller's jobs, depend on the caller's own jobs alone, as long as the store can be read |
| JobModel.StatusDependsOnOwn | src/hyperv_mcp/guestjobs.py:831-877 | so do those of a status request |
| JobModel.OthersUntouched | src/hyperv_mcp/guestjobs.py:467-519 | whatever a principal stops or asks about, no entry and no row of anybody else changes |
| JobOutcomes.StatusOutcome | src/hyperv_mcp/guestjobs.py:831-877 | a status request enters the guest unless the job is stopped, orphaned or without a credential, and repeats its answer; an exit, and nothing else, retires the row, and only the row |
| JobOutcomes.StopOutcome | src/hyperv_mcp/guestjobs.py:922-1073 | a stop enters the guest in the same cases, succeeds exactly when the tree is gone, no survivor is named and the row is written, and has its own reply for every other answer |
| JobModel.CredentialLifetime | src/hyperv_mcp/guestjobs.py:437-464 | through every run of operations by anyone, peers included, a job started here stays stoppable with its credential until a stop of it succeeds, whose stopped row, naming the credential's source, is then already written; and from there it stays stopped and without credential until it is evicted |
| JobModel.RunKeepsSound | src/hyperv_mcp/guestjobs.py:293-464 | in every reachable state, peers or not, a job started here holds its credential exactly until it is stopped, no other entry holds one, no entry is stopped ahead of its row, and the views agree on owners |
| JobModel.StepKeepsSound | src/hyperv_mcp/guestjobs.py:293-464 | every operation, and peers writing rows, keep owners agreed, credentials present exactly while a job started here is not stopped, and no entry stopped ahead of its row |
| JobModel.RunAuthenticates | src/hyperv_mcp/guestjobs.py:172-177 | in no reachable state is a job started here refused for want of a credential |
| JobModel.RunKeepsCapIff | src/hyperv_mcp/guestjobs.py:348-376 | the two views together hold at most 128 jobs in every state of a run exactly when they did at first and after every write of a peer: this process never breaks the cap |
| JobRegistry.Registry.Reserve | src/hyperv_mcp/guestjobs.py:293-389 | a refusal or a failing store call leaves both views as they were, credentials included; success is the exact eviction and the new job in both views; full only when eviction cannot make room |
| JobRegistry.Registry.Restore | src/hyperv_mcp/guestjobs.py:377-389 | putting back the log restores every evicted entry with its credential |
| JobRegistry.Registry.ByAge | src/hyperv_mcp/guestjobs.py:326-346 | the queue holds the evictable jobs of both views, oldest first |
| JobRegistry.Registry.Start | src/hyperv_mcp/guestjobs.py:723-828 | started exactly when a slot is had and the guest returns a positive pid; the entry is then live with its owner, pid, VM and credential, and the row, if it could be written, active with the same and the credential's source; a start that fails in the guest leaves only the evictions behind, or, if its row cannot be deleted, the placeholder in both views |
| JobOutcomes.ActiveSurvivesRestart | src/hyperv_mcp/guestjobs.py:180-214 | with memory lost, the owner of an active row, and nobody else, finds the job again with its pid, running, and a stop of it gets as far as the guest once its credential resolves; it makes no room for another |
| JobRegistry.Registry.Release | src/hyperv_mcp/guestjobs.py:416-434 | withdraws a reservation from both views, or from neither when the row cannot be deleted; leaves anything but a reservation alone |
| JobRegistry.Registry.Find | src/hyperv_mcp/guestjobs.py:467-519 | restores and caches as the lookup rule says, never caching a starting or orphaned row |
| JobRegistry.Registry.Observe | src/hyperv_mcp/guestjobs.py:831-877 | an observed exit retires the row only |
| JobRegistry.Registry.StopJob | src/hyperv_mcp/guestjobs.py:922-1073 | pins the credential's source, writes the row, and only then lets go of the credential |
| PooledExec.RunPooled | src/hyperv_mcp/guestexec.py:362-442 | one retry at most; what is reported is the answer of the attempt on the last worker taken, and nothing is reported exactly when no attempt made can be; every worker taken is idle again only if its answer was reported, in time and alive, else it is gone |
| PooledExec.EnteredIsReported | src/hyperv_mcp/guestexec.py:401-442 | with honest workers, an attempt that entered the guest is the one reported |
| PooledExec.RunInner | src/hyperv_mcp/guestexec.py:628-663 | the pooled answer if there is one, else the per-call path's, with and without a pool; and how often the guest is entered over first attempt, retry and per-call path |
| PooledExec.RunsAtMostOnce | src/hyperv_mcp/guestexec.py:401-442 | with honest workers, and timing that does not raise, the guest script runs at most once |
| PooledExec.RunsAtMostOnceIff | src/hyperv_mcp/guestexec.py:401-442 | for any class of worker behaviour: the guest script runs at most once, whatever is granted, retried or fallen back to, exactly when no behaviour of the class enters the guest and is then abandoned |
| PooledExec.UnknownIsFinal | src/hyperv_mcp/guestexec.py:526-552 | a timeout, or an answer that is not a session failure, is final: no retry, no fallback |
| Utf8.TruncateKeepsLongestFit | src/hyperv_mcp/guestexec.py:178-182 | truncation keeps the longest prefix in whole characters whose encoding fits, and is flagged exactly when something was dropped |
| Utf8.RoundTrip | src/hyperv_mcp/guestexec.py:179-182 | decoding an encoded text gives the text |
| Utf8.KnownEncodings | src/hyperv_mcp/guestexec.py:179-182 | encodings of one to four bytes as the standard's examples give them |
| Utf8.FrontIsEncoding | src/hyperv_mcp/guestexec.py:182-182 | the decoder accepts encodings only: no overlong form, no surrogate, nothing too large |
| Base64.RoundTrip | src/hyperv_mcp/filetransfer.py:469-498 | decoding the encoding of any bytes gives them back |
| Base64.KnownEncodings | src/hyperv_mcp/filetransfer.py:469-498 | encodings as the standard's test vectors give them |
| Base64.EncodeConcat | src/hyperv_mcp/filetransfer.py:287-295 | encodings of a whole number of three-byte groups concatenate |
| Base64.PaddedCannotContinue | src/hyperv_mcp/filetransfer.py:287-295 | text after padding never decodes |
| Transfer.WindowsDecodeIff | src/hyperv_mcp/filetransfer.py:287-295 | joined encodings of windows decode to the file exactly when a window is a multiple of three or there is only one; otherwise not at all |
| Transfer.ChunkSizesFit | src/hyperv_mcp/filetransfer.py:294-295 | the window size in use decodes for every file |
| Transfer.Get | src/hyperv_mcp/filetransfer.py:617-639 | the get loop's text decodes to the staged file, however short the reads come back |
| Transfer.Put | src/hyperv_mcp/filetransfer.py:469-498 | the put loop's slices decode to the source |
| DirTracker.Disk.MakeDirs | src/hyperv_mcp/filetransfer.py:338-396 | success means the path is there and exactly the directories this call made are recorded, leaf first; it fails only where a file is on the way or making a directory is refused, on a disk left alone exactly there, and then leaves none of its own that could still be removed; on a disk left alone a success adds exactly what was missing |
| DirTracker.Disk.Component | src/hyperv_mcp/filetransfer.py:374-392 | a directory that others made first is used but never recorded as ours; one that is missing is made unless a file is in the way or it is refused |
| DirTracker.Disk.Prune | src/hyperv_mcp/filetransfer.py:365-371 | tries only directories this call made; what stays is not empty, or could not be removed |
| DirTracker.Disk.CleanUp | src/hyperv_mcp/filetransfer.py:399-411 | removes the staged file unless that fails, and then the directories in the same way |
| DirTracker.Disk.Move | src/hyperv_mcp/filetransfer.py:867-882 | the staged file lands at the destination, replacing what is there, or inside it if it became a directory; the staged name is free again |
| DirTracker.Disk.FailedGet | src/hyperv_mcp/filetransfer.py:832-920 | over a whole failed get: the file is moved into place unless the destination is a directory, the way to it is blocked, or something fails before; the staged file is gone unless it is stuck, and a directory of ours stays only for something somebody else put into one or for the file moved into place; left alone, the disk is as it was exactly when nothing was moved into place, and otherwise the destination file and the directories above it stay and nothing else |
| DirTracker.StaysForSomebody | src/hyperv_mcp/filetransfer.py:338-411 | if a directory of ours stays although removing works, somebody put something into one of ours, or our staged file is still there |

## Left out

- PowerShell, WMI, SQLite, sockets, HTTP, files and processes: parameters and oracles stand for
  what they answer, and a store transaction is one atomic step that rolls back on failure.
- The text of the generated scripts, quoting and command-line length: the sequence script is its
  command language, its size a parameter, its output lines structured rather than text.
- A sequence script that times out, the request-key replay, and whatever goes wrong outside the
  steps: a capture for the frame precondition, the management service, a lookup that itself fails.
- A boot epoch that the in-process backend cannot read, and a machine whose backend is found
  unavailable, which sends the call to the script. In a reply, VM name, timings, the digest's domain.
- A device asked the same after the same steps answers alike on both transports, in whatever
  words, and a second time within one step.
- What a device makes of a call is taken from its name: a call that succeeds has its whole effect on
  the console of `ConsoleEffects`; what one that fails leaves behind is open.
- Scaling a pointer rounds the exact quotient, not a floating-point one.
- The wording of errors: each transport's text is given with the failure.
- Fields of the wrong type in a raw step: the fields of `SequencePlan.Raw` are typed.
- Image decoding and hashing: frame digests are opaque values.
- Screenshot size fallback, changed-pixel counting, the name-to-GUID hint map.
- Row keys and ids are random in the program; here a row key is its position in the log, and a
  fresh lease or job id is one never used before.
- `authorize`, `_owned_rows` and the unleased gate read the table several times; each is one read here.
- The unleased gate for a VM addressed by name only, and the listing of leases.
- The rounded seconds in a conflict's message, Unicode case folding and whitespace: identifiers
  are folded and stripped as ASCII.
- Start times of jobs are integers ordered as their timestamps are; ties are broken in any order.
- Job entries are values in the dictionary, not objects: callers get snapshots in the program too,
  so no update through an alias is lost.
- Two job operations interleaving inside one process, a store failing at commit, the branch of a
  stop whose entry was evicted meanwhile, and events, audit and output streams of jobs.
- Credential profiles and usernames: a credential is its source and its secret.
- The pool's own waiting, capacity and invalidation: what it grants is a parameter.
- Lone surrogates, which `_truncate` replaces before it measures.
- A staged file that shrinks while it is read, and the hashes and contents of transferred files:
  of a file that a get replaces, only that it is replaced.
- Splitting a path into drive and components, and others removing directories.
- Configuration, policy, redaction, diagnostics, the harvest manifest and benchmarks.
