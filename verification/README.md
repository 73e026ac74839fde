# Verification of the update manager's core

The update manager updates components of a device transactionally: a request is prepared, installed, verified after a
reboot, and then applied or reverted. This project models the parts that make this safe and proves what they keep.

- **Update handler** (`HandlerSpec`, `UpdateHandler`, `HandlerRuns`, `HandlerTransactions`, `HandlerReports`): the
  persisted machine idle, prepared, updated, failed. The class `Handler` changes its fields step by step; every event is
  proved to be a step of the relation in `HandlerSpec`, and the theorems are about all runs of such steps and of
  restarts at any time, within an event too. `HandlerReports` says what is told of an event: errors and versions.
- **Operation loop and priority scheduler** (`OperationLoop`, `ComponentOperations`, `PriorityOperations`): operate,
  reboot those that asked for it, repeat; each round runs priority groups one after the other and each group
  concurrently. The scheduler's result is proved for every interleaving, and carried into the loop: whose error is told,
  and which components an error leaves out.
- **Dual-partition module** (`DualPart`, `DualPartModule`, `DualPartRuns`, `DualPartCalls`, `Firmware`): two slots, a
  stored record, volatile fields, BootOrder, BootNext and BootCurrent. The class is proved equal to a function of its
  state and of the answers of its environment; rollback, commit and boot selection are proved over all runs of that
  function, with any behaviour of the firmware (section 3.1.1 of the UEFI Specification 2.10).
- **Overlay module** (`Overlay`, `OverlayModule`): the same interface over a set of flag files.
- **Both modules behind the handler** (`UpdateModules`): the reboot requests of either come to an end, and the theorems
  that span handler and module.
- **The whole system** (`SystemRuns`, `SystemVersions`, `SystemImages`, `SystemInputs`): runs of handler, modules and
  firmware with complete events, stops of the process between events or within one, power cycles, and new processes that
  create and initialise the modules. Every such run is proved to be a run of the handler and, module by module, a run of
  the dual-partition module. `SystemVersions` relates the images in the slots to the versions the handler stores,
  `SystemImages` the image written to the request; `SystemInputs` runs handler objects through the inputs that need the
  premises.
- **EFI boot variables** (`BootOrder`, `EfiController`, `BootOrderLaws`, `BootEntries`, `LittleEndian`, `DevicePath`):
  normalisation and promotion of the boot order, free entry ids, the list codec and the device-path parser (sections
  10.3.1 and 10.3.5.1 of the UEFI Specification 2.10).
- **Root-device detection** (`BootParams`).

Everything outside (devices, storage, firmware, downloads, checks, modules as the handler sees them) appears as
parameters or as arbitrary functions, so a theorem holds for all their answers, failures included,
except for what its premises say.

Assumptions of the model: the body of a scheduled operation is atomic (the code appends to a shared list and sets the
group's error without a lock); an event is processed completely, callbacks included, before the next one, with the
event's own callback before the general one; SemVer precedence (section 11 of Semantic Versioning 2.0.0) is an order on
versions, given as a map into the reals; storage writes happen completely or not at all; the boot variables belong to
one dual-partition module.

Where the code and its documentation differ, the model follows the code:

- The diagram at lines 37-71 of dualpartmodule.go lets the second Update switch the boot order, Apply redo the update on
  the other partition, and Revert restore the boot order. In the code the running slot is promoted by Init, through
  SetBootOK; Update and Revert write BootNext only, and Apply copies the updated slot to the other one.
- The diagrams at lines 35-62 of overlaymodule.go let Init set the states updated and idle after a reboot. In the code
  Update and Apply set them before the reboot.

Some properties do not hold without a condition. For six the condition is proved exact:

- The comparison loop of checkBootOrder stays in bounds (`PastEndIff`; the order [1] with module entries 1 and 2 in
  `PastEndInput`).
- An interrupted dual-partition Update can be reverted after a restart (`CrashInsideUpdate`, with a run that loses the
  old content in `RollbackCanBeLost`; `BenignExactly` for every step).
- The first entry of BootOrder is one that has booted. Creating the controller checks the order before anything else,
  and may put another entry in front: from the order [9, 1, 2], with module entries 1 and 2, running from 9
  (`MainCanBeReplaced`; `StepKeepsMainBooted` for every step; over all runs from a normal order in `MainAlwaysBooted`).
- An Update that reports success runs from the slot it updated. GetCurrentBoot counts an entry unknown to the module as
  slot 0, so it does not if slot 0 was updated and such an entry comes up (`PendingSlotRuns`, `UpdatedRunsAlways`, with
  a run in `ForeignEntryPasses` that ends with an image that has never booted in both slots).
- After a restart, an Apply that reports success has copied the update. It has not if Init did not get as far as the
  record: the module then takes itself to be idle and the Apply to be done (`ApplyAfterRestart`), and the handler stores
  the requested version over unequal slots (`AppliedHoldsUpdate`, `ImageNotCopied`).
- Slot detection gives the same slots from each of them (`SlotsIndependentOfBoot`; suffixes empty and 2 in
  `NumberlessSlotIsLost`).

For three more it is a condition on the run, with an input that needs it:

- After Apply the slots hold the requested version. They do not if modules have carried out a Revert while the stored
  record stayed in updated, a stop came, and the handler applies what has been reverted (`AppliedHoldsRequested` with
  `RevertOpen`, `RevertForgotten`; `AppliedHoldsExactly` is exact in terms of the module before the event).
- Stored versions do not go back. They may after such an Apply (`ForgottenVersionPasses`), or if a module goes on
  running from a slot that a Revert has overwritten, because the reboot it asked for did not happen
  (`StaleVersionPasses`; `StoredVersionsRise` with `Trusted`).
- An Update writes the image of the last request that was accepted. Prepare sets the path in memory before it stores the
  record, so an Update of the same process writes the image of a later request that was refused because storing failed
  (`RefusedPathIsWritten`; `UpdateWritesPrepared` with `NoneRecords`). Behind the handler this does not happen, as a
  refused request leads to failed, where only a Revert is possible (`RequestedImageIsWritten`).

To check the project: `dafny verify dfyconfig.toml`.

## Model

| member | source | states |
|---|---|---|
| SystemRuns.IdleMeansCommitted | updatehandler/updatehandler.go:180-194 | Over every run of handler, modules and firmware whose calls do no harm and whose new processes read pending records, with stops between events or within one and any power cycles: each dual-partition component has gone through a run of its own that the labels make (RunOf), none of whose steps does harm; whenever the handler is idle both slots hold the committed content of that run, and it is still what they held at the start unless an Apply that the handler acted on has been under way |
| SystemRuns.RevertRestoresAlways | updatehandler/updatehandler.go:850-867 | Over every run of the system, whatever calls, copies and saves fail: if no Update or Apply acted on spoils the only good slot of a dual-partition component, and no stop loses the record of a written one (BenignBefore, on the component before each event and at each stop), a Revert event whose call of it does not fail leaves the committed content of its run (RunOf) in both slots; that is the content at the start unless an Apply has been acted on |
| SystemRuns.RevertRestoresAfter | updatehandler/updatehandler.go:850-867 | The same for every benign run, however found, that leads to the module as the handler has it before the Revert |
| SystemVersions.AppliedHoldsRequested | updatehandler/updatehandler.go:821-848 | Over every run as for IdleMeansCommitted: when an Apply event has been processed from updated, and the stored record has not said updated ever since an earlier Revert that was acted on, a dual-partition component of its transaction that is not kept as an error holds in both slots an image of the version requested, and that version is stored |
| SystemVersions.AppliedHoldsExactly | updatehandler/updatehandler.go:821-848 | From any state in updated: a component not kept as an error ends with the requested version in both slots if and only if the image Apply copies from has it and, where the module does not know of an update, the other one too |
| SystemVersions.StoredVersionsRise | updatehandler/updatehandler.go:642-848 | Over every run as for IdleMeansCommitted in which no Apply is acted on while a revert is open and no complete Apply or Revert overwrites the running slot: each stored version stays or is replaced by one of strictly higher precedence; nothing is assumed of what dual-partition modules report, only overlay modules are taken to keep the contract of VersionsNeverGoBack |
| SystemVersions.ImageInvariantAlways | updatehandler/updatehandler.go:788-819 | Over every run as for IdleMeansCommitted: unless a revert is open, a record in updated, in memory or in storage, has the versions it names in the slots that Apply copies from; modules without an update under way have equal slots |
| SystemVersions.OpenMeaning | updatehandler/updatehandler.go:850-867 | A revert is open exactly if a Revert was acted on at an earlier step and the stored record has said updated after every step since |
| SystemRuns.UpdatedRunsAlways | updatehandler/updatehandler.go:788-819 | Over every run of the system, whatever calls, copies, saves and restarts fail, when an Update event settles in updated: a dual-partition component that knew its slot at the start has an update under way with the requested version and no boot error, and BootCurrent is the entry of the slot updated if and only if it is not the case that slot 0 was updated while the machine runs from an entry unknown to the module |
| SystemRuns.SystemInvariantAlways | updatehandler/updatehandler.go:180-194 | Over every run whose calls do no harm and whose new processes read pending records: an update is under way in a module only while the handler has its transaction open in memory and in storage; modules and storage agree on it, and modules know their slot |
| SystemRuns.RunOfModule | updatehandler/updatehandler.go:603-640 | Within every run of the system each dual-partition module goes through a run of its own, cut where the views are: between two of them exactly calls of the label's event with the answers the label gives, a further one only after a request for a reboot, and at the end of a stop, and only there, the restart of the module as it was left |
| SystemRuns.RunIsBenign | updatehandler/updatehandler.go:603-640 | What is demanded of the component before each event and at each stop is enough for every step of its run to be benign, those within events included |
| SystemRuns.RunNeverApplies | updatehandler/updatehandler.go:821-848 | A module applies only where the handler acts on an Apply |
| SystemRuns.RunSucceeds | updatehandler/updatehandler.go:603-640 | In a system whose calls do no harm no step of a module's run does |
| SystemRuns.SystemRunIsRun | updatehandler/updatehandler.go:180-194 | Every run of the system is a run of the handler, so the theorems about handlers hold in the system |
| SystemRuns.FirstSystemStart | updatehandler/updatehandler.go:162-217 | A first start with nothing stored meets the premises of the run theorems, and modules with equal slots are settled over their content, as IdleMeansCommitted demands |
| SystemVersions.FirstVersions | updatehandler/updatehandler.go:162-217 | A first start with no module record stored and equal slots meets the premises of these theorems, and with no versions stored that of StoredVersionsRise |
| SystemVersions.VersionInvariantAlways | updatehandler/updatehandler.go:180-194 | Over every run as for StoredVersionsRise, interrupted Reverts included: no stored version is above that of the image a Revert would bring back, every requested one is above the stored one, and a module reports the version of the slot it runs from or nothing |
| SystemInputs.ImageNotCopied | updatehandler/updatehandler.go:821-848 | The handler object over a module whose record cannot be read: Apply from updated ends in idle with the requested version stored, no error, and the slots unequal |
| SystemInputs.RevertForgotten | updatehandler/updatehandler.go:850-867 | The handler object after a stop within a Revert, once the module had reverted and before the handler stored idle: Apply ends in idle with the requested version stored and both slots holding the old image |
| SystemInputs.ForgottenVersionPasses | updatehandler/updatehandler.go:642-718 | After that, a request between the version the module reports and the stored one is prepared |
| SystemInputs.StaleVersionPasses | updatehandler/updatehandler.go:642-718 | The handler object after a Revert whose reboot does not happen: the module reports the reverted image's version, and a request between it and the stored version is prepared |
| SystemRuns.WorkingStorageIsCareful | updatemodules/partitions/modules/dualpartmodule/dualpartmodule.go:272-372 | Working storage and firmware, and copies that fail at most during Update leaving the slot as it was, meet the premise on calls |
| SystemRuns.RollBackAfterStop | updatehandler/updatehandler.go:162-261 | The handler objects: a process stops after Update asked for its reboot, the new slot does not come up and the old one does; the new handler created over what is stored, given StartUpdate and RevertUpdate, ends in idle with both slots holding the pre-update content |
| SystemRuns.Recreated | updatehandler/updatehandler.go:162-217 | A handler created over what another one stored continues in its state, with every module created anew and initialised |
| UpdateModules.FailedBootIsRolledBack | updatehandler/updatehandler.go:788-867 | An update is pending and, after any power cycles, any entry but the new slot's runs (an unknown one too if slot 1 is the new one): the Update event ends in failed whatever the other components do, and a Revert event after it ends in idle with both slots holding the pre-update content |
| UpdateModules.AppliedHoldsUpdate | updatehandler/updatehandler.go:821-848 | After Apply from updated, a dual-partition component that is not kept as an error has the requested version stored; its slots are equal if and only if the module knew of the update or they were equal before, and in the first case it is idle in memory and storage with the updated image in both slots; otherwise it was idle and is unchanged |
| UpdateModules.UpdatedRunsTheUpdate | updatehandler/updatehandler.go:788-819 | When an Update event settles in updated, a dual-partition component of the request that knew its slot has been updated in the slot it runs from, has no boot error and reports the requested version; BootCurrent is the entry of the slot updated if and only if it is not the case that slot 0 was updated while an entry unknown to the module runs |
| UpdateModules.AtMostTwice | updatehandler/updatehandler.go:603-640 | Within one Update, Apply or Revert event a dual-partition or overlay module is operated on at most twice and rebooted at most once, for any outcomes, failing reboots and both error policies |
| UpdateModules.UpdateRanksDrop | updatemodules/partitions/modules/dualpartmodule/dualpartmodule.go:272-312 | For both modules, for any answers of devices and storage: an Update that asks for a reboot has left the prepared state, so it cannot ask again |
| UpdateModules.ApplyRanksDrop | updatemodules/partitions/modules/overlaymodule/overlaymodule.go:304-338 | An Apply that asks for a reboot has left the updated state (only overlay asks) |
| UpdateModules.RevertRanksDrop | updatemodules/partitions/modules/dualpartmodule/dualpartmodule.go:315-343 | A Revert that asks for a reboot has left for idle |
| DualPartRuns.SettledAlways | updatemodules/partitions/modules/dualpartmodule/dualpartmodule.go:246-372 | Over every run of calls that succeed or fail without harm, and restarts that read the record of a pending update: idle or prepared means both slots hold the committed content; updated means the update slot holds the image written last and the other one the committed content |
| DualPartRuns.OutcomeOfTransaction | updatemodules/partitions/modules/dualpartmodule/dualpartmodule.go:315-372 | After any such run a completed Apply leaves the new image in both slots and a completed Revert the committed content, also from prepared with a stale update index |
| DualPartRuns.BenignExactly | updatemodules/partitions/modules/dualpartmodule/dualpartmodule.go:246-372 | For a single step with any outcome (failed and torn copies, failed saves, restarts whose Init does not read the record): the committed content stays recoverable if and only if the step is benign, a condition on the state before it and the answers it meets |
| DualPartRuns.RunStaysRollbackable | updatemodules/partitions/modules/dualpartmodule/dualpartmodule.go:246-372 | The committed content stays recoverable over every run of benign steps, however the calls in it fail |
| DualPartRuns.RevertRestores | updatemodules/partitions/modules/dualpartmodule/dualpartmodule.go:315-343 | From equal slots, after any benign run without a commit, a Revert that does not fail restores both slots and reaches idle |
| DualPartRuns.CommittedOnlyByApply | updatemodules/partitions/modules/dualpartmodule/dualpartmodule.go:346-372 | The content a rollback restores changes only where Apply completes its copy |
| DualPartRuns.CrashInsideUpdate | updatemodules/partitions/modules/dualpartmodule/dualpartmodule.go:292-309 | Update stopped after the image was written and before its index was stored, then a new process that reads the record: a completed Revert restores the committed content if and only if the stored record is pending and names that slot already, or the image was no change |
| DualPartRuns.RollbackCanBeLost | updatemodules/partitions/modules/dualpartmodule/dualpartmodule.go:292-309 | One concrete run of that kind, with a restart of the process only, in which Revert completes and both slots end with the unverified image |
| DualPartRuns.UpdateStartsTrial | updatemodules/partitions/modules/dualpartmodule/dualpartmodule.go:292-311 | From the default slot, an Update that asks for a reboot has the image at the recorded path in the spare slot, BootNext on that slot, and BootOrder and the committed content as before |
| DualPartRuns.UpdateTakesEffect | updatemodules/partitions/modules/dualpartmodule/dualpartmodule.go:272-372 | The full cycle: if the new slot comes up, the repeated Update succeeds, the slot is the default entry with BootNext consumed, and a completed Apply leaves the image in both slots |
| DualPartRuns.ApplyAfterRestart | updatemodules/partitions/modules/dualpartmodule/dualpartmodule.go:346-352 | After a restart with an update pending, an Apply that reports success has put the image in both slots if and only if Init read the record; otherwise it changes nothing |
| DualPartRuns.PendingSlotRuns | updatemodules/partitions/modules/dualpartmodule/dualpartmodule.go:275-286 | Over every run with any outcomes: if Update reports success on a pending update, BootCurrent is the entry of the slot updated if and only if it is not the case that slot 0 was updated while an unknown entry runs |
| DualPartRuns.ForeignEntryPasses | updatemodules/partitions/controllers/eficontroller/eficontroller.go:85-101 | A concrete run in which slot 0 is written, an entry unknown to the module comes up, Update reports success with the new version, and Apply copies the image that never booted over the other slot |
| DualPartRuns.TrialVerdict | updatemodules/partitions/modules/dualpartmodule/dualpartmodule.go:275-286 | When Init reads the record after any power cycles, the repeated Update succeeds if and only if the running entry is the new slot's (or an unknown one with slot 0 the new one), that slot has a version and the checker is content |
| DualPartRuns.OldSlotComesUp | updatemodules/partitions/controllers/eficontroller/eficontroller.go:126-136 | The selection of the new slot lasts for one power cycle: if it does not come up in the first one, or there are more, the default entry runs, provided it comes up |
| DualPartRuns.FailedTrialFallsBack | updatemodules/partitions/modules/dualpartmodule/dualpartmodule.go:272-311 | From before Update: after it asked for its reboot and the new slot did not come up, the running entry is not the new slot's |
| DualPartRuns.FallbackIsSafe | updatemodules/partitions/modules/dualpartmodule/dualpartmodule.go:275-343 | If any entry but the new slot's runs (an unknown one too if slot 1 is the new one): the first BootOrder entry is unchanged and the order is the checked one, BootNext is consumed, Update reports the failure, and a completed Revert restores both slots without asking for a reboot |
| DualPartRuns.TrialPromotes | updatemodules/partitions/modules/dualpartmodule/dualpartmodule.go:208-210 | If the new slot reached Init it leads BootOrder, which is otherwise a permutation of the checked order |
| DualPartRuns.MainAlwaysBooted | updatemodules/partitions/controllers/eficontroller/eficontroller.go:139-292 | Over every run from a normal boot order, with any firmware behaviour and the check at every start, the first BootOrder entry is one whose software has reached Init, and the order stays normal |
| DualPartRuns.StepKeepsMainBooted | updatemodules/partitions/controllers/eficontroller/eficontroller.go:139-292 | For a single step from any order: the first entry stays one that has booted if and only if the entry in front after the check is one, or is the running one or gives way to it |
| DualPartRuns.MainCanBeReplaced | updatemodules/partitions/controllers/eficontroller/eficontroller.go:220-292 | The order [9, 1, 2] with module entries 1 and 2, running from 9: the check puts an entry in front that has never booted |
| DualPartRuns.NormalAfterRestart | updatemodules/partitions/controllers/eficontroller/eficontroller.go:220-292 | Every restart that brings up a process leaves a normal order, whatever it found |
| DualPartRuns.CallsKeepBootOrder | updatemodules/partitions/modules/dualpartmodule/dualpartmodule.go:246-372 | No call changes BootOrder or BootCurrent, and Prepare and Apply change no boot variable at all |
| DualPartRuns.AfterRestart | updatemodules/partitions/modules/dualpartmodule/dualpartmodule.go:195-238 | What a new process is in, from the state before it: slots and stored record as they were, the record read if and only if Init gets that far, the running slot known unless there is a boot error, and a boot error if and only if the version is missing or the checker objects |
| DualPartRuns.StartsExactly | updatemodules/partitions/controllers/eficontroller/eficontroller.go:220-292 | A process comes up if and only if the boot order can be read, its check stays in bounds, and the order needs no rewriting or can be rewritten |
| DualPartRuns.OrderAfterRestart | updatemodules/partitions/controllers/eficontroller/eficontroller.go:139-184 | The order a restart leaves: the checked one, with the running module entry promoted if that can be written |
| DualPartRuns.ReportsCommitted | updatemodules/partitions/modules/dualpartmodule/dualpartmodule.go:221-229 | After any restart without a boot error and with no update under way, the version reported is the committed content's |
| HandlerRuns.InvariantAlways | updatehandler/updatehandler.go:180-194 | Over every run of events, failed saves and restarts within events: the record's state is the machine's, pending components are configured ones, idle keeps only components in error, and except in failed the stored record equals the one in memory |
| HandlerRuns.StepKeepsInvariant | updatehandler/updatehandler.go:414-445 | One event or restart, with any behaviour of modules and storage, preserves that invariant and the set of components |
| HandlerTransactions.OnlyVerifiedIsApplied | updatehandler/updatehandler.go:180-194 | Over every run of events, failed saves and restarts: the handler is in updated, the only state Apply starts from, only with a record that an earlier Update event stored after verifying every component in it |
| HandlerTransactions.UpdatedIsVerified | updatehandler/updatehandler.go:788-819 | Update settles in updated only if for every pending component the calls made, in turn and starting from the module as it was before the event, end with an Update that returned without error or reboot request and left the module as it is, and the module reports the requested version |
| HandlerTransactions.EventReachesTarget | updatehandler/updatehandler.go:180-194 | An event the state does not allow changes nothing; otherwise it leads to its target or to failed, and Apply and Revert reach idle exactly when the save succeeds |
| HandlerTransactions.FailedUpdateFails | updatehandler/updatehandler.go:788-819 | One pending component whose module answers Update with an error brings the handler to failed |
| HandlerTransactions.FailedUpdateKeepsModule | updatehandler/updatehandler.go:788-819 | A module that refuses Update without changing is unchanged after the event, whether or not another component's error kept it from being called |
| HandlerTransactions.RevertReachesAll | updatehandler/updatehandler.go:850-867 | Revert calls every pending component whatever fails; one that asks for no reboot ends exactly as its Revert left it |
| HandlerTransactions.VersionsNeverGoBack | updatehandler/updatehandler.go:642-848 | Over every run in which a module for which a version is requested reports no less than its stored version, or nothing that is a version, when the request arrives: each stored version stays or is replaced by one of strictly higher precedence, through failures, failed saves and restarts within an event |
| HandlerTransactions.AppliedIsStored | updatehandler/updatehandler.go:821-848 | After Apply every component of the request is either kept as an error or has its requested version stored |
| HandlerTransactions.ApplyOnce | updatehandler/updatehandler.go:821-848 | A component whose Apply asks for no reboot ends as that Apply left it; it is kept as an error if and only if it was one, or its Apply or the storing of its version failed |
| HandlerTransactions.PreparedIsHigher | updatehandler/updatehandler.go:642-718 | The handler settles in prepared only if every requested version is strictly above what its module reported when the request arrived |
| HandlerTransactions.PreparedIff | updatehandler/updatehandler.go:720-786 | A prepare event settles in prepared if and only if the request is accepted and not empty, for every component in it the requested version has the higher precedence, the image is in order and the module accepts it, and the record can be saved |
| HandlerTransactions.PreparedModules | updatehandler/updatehandler.go:642-744 | In prepared every module of the request is exactly as its own accepted Prepare for the requested image left it |
| HandlerTransactions.PrepareCaptures | updatehandler/updatehandler.go:720-786 | Prepare records for every accepted component the version reported at that time and the version requested |
| HandlerTransactions.ReportStaysCaptured | updatehandler/updatehandler.go:358-376 | While saves succeed and the transaction is open, reported versions stay the captured ones through any number of events and restarts, whatever the modules report |
| HandlerTransactions.IdleReportsModules | updatehandler/updatehandler.go:414-429 | On return to idle the reported versions are the modules' own |
| HandlerTransactions.FirstStart | updatehandler/updatehandler.go:162-217 | A first start with nothing stored satisfies what the run theorems start from |
| HandlerRuns.OperationKeeps | updatehandler/updatehandler.go:603-640 | An operation changes only modules, the status and error of pending components, and stored versions; a version it stores is the requested one |
| HandlerRuns.AcceptedExactly | updatehandler/updatehandler.go:746-769 | A request is accepted if and only if every entry names an installed component that is not in error, and then exactly the named components are pending |
| HandlerRuns.AcceptedAreInstalled | updatehandler/updatehandler.go:746-769 | Whatever was recorded of a request, accepted or refused half way, names installed components with their reported and requested versions |
| HandlerReports.AcceptedEntries | updatehandler/updatehandler.go:746-769 | For every component named, the last entry before the first refused one decides: the status is installing, without error, with that entry's type and version; the reported version is captured; no other component is recorded |
| HandlerReports.RefusedRequest | updatehandler/updatehandler.go:720-786 | A refused request leads to failed and tells why: it is empty, or the first entry refused names a component that is not installed, or is in error and then that error; no module is called, and what was recorded before that entry stays |
| HandlerReports.RequestTells | updatehandler/updatehandler.go:720-786 | Any other request has its components prepared and reports as EventTells says |
| HandlerReports.EventTells | updatehandler/updatehandler.go:414-452 | The error an event leaves replaces the one before: of the call that failed in the first round with a failure, at its highest failing priority, else of saving the record, else none; failed is reached exactly on an error of an operation that may fail the event or on a failed save |
| HandlerReports.SettleReports | updatehandler/updatehandler.go:358-445 | What settling changes: a failed save keeps the record in storage and the first error there is; on return to idle, and only then, exactly the components in error stay and the modules' own versions are reported |
| HandlerReports.StartReports | updatehandler/updatehandler.go:326-376 | A new process reports the captured version of the components of an open transaction and of all others the module's own, or nothing if that cannot be read |
| HandlerReports.PrepareAnswers | updatehandler/updatehandler.go:642-744 | A component is prepared exactly if its version is raised, its image is in order and the module accepts it; before that the module is not touched, and no reboot is asked for |
| HandlerReports.UpdateAnswers | updatehandler/updatehandler.go:788-819 | An Update succeeds exactly if the module's does and the module then reports the requested version; its errors and requests for a reboot are passed on |
| HandlerReports.ApplyAnswers | updatehandler/updatehandler.go:821-848 | The version is stored exactly if the module has not failed, also when it asks for a reboot, and that request is passed on |
| HandlerReports.RebootAnswers | updatehandler/updatehandler.go:563-601 | A reboot asks for no other one, and its error is the module's |
| HandlerReports.RevertAnswers | updatehandler/updatehandler.go:850-867 | The module's answer to Revert is passed on as it is |
| HandlerReports.AbsorbTakes | updatehandler/updatehandler.go:603-640 | An operation leaves in the handler each called component's module, status and stored version as its calls left them, and everything else as it was |
| OperationLoop.ComponentOperation | updatehandler/updatehandler.go:603-640 | For any modules: within any number of rounds the loop has ended with the outcome, or some component asked for a reboot in each of them. Outcome: each configured component went through operation and reboot in turn, reboots only on request; an error iff a call failed, and it is that of the first round with a failure, at the highest priority that fails there; with stopOnError exactly the components at or above that priority took part in that round, and no call follows; without one, or without stopOnError, every last call was an operation that asks for no reboot |
| OperationLoop.LoopFinishes | updatehandler/updatehandler.go:603-640 | Modules whose rank drops on each reboot request end the loop within bound + 1 rounds |
| OperationLoop.LoopBound | updatehandler/updatehandler.go:603-640 | For any outcome of the loop, a module whose rank drops on each reboot request is operated on at most bound + 1 times and rebooted at most bound times |
| OperationLoop.CallCounts | updatehandler/updatehandler.go:603-640 | In a component's history operations and reboots alternate, starting with an operation |
| OperationLoop.AllDone | updatehandler/updatehandler.go:603-640 | No error with stopOnError: every component is configured, and the last of its calls was the operation, in the state the calls before it had led to; it succeeded, asked for no reboot and left the module as it is |
| OperationLoop.AllCalled | updatehandler/updatehandler.go:603-640 | Without stopOnError every configured component is operated on, whatever fails |
| OperationLoop.LeftOutBelow | updatehandler/updatehandler.go:513-640 | If an Update or Prepare stops on an error in its first round, the configured components never called are exactly those whose update priority is below that of the component whose error is told, and none has been rebooted |
| OperationLoop.FirstCall | updatehandler/updatehandler.go:603-640 | The first operation meets the module as it was before the event, and is the only call unless it asks for a reboot |
| OperationLoop.StatusesMarked | updatehandler/updatehandler.go:447-452 | In both modes a status newly becomes an error if and only if a call for that component failed or its lookup did; with stopOnError the first failed lookup marks its component alone and no call is made |
| OperationLoop.StatusTells | updatehandler/updatehandler.go:447-601 | A status keeps its type and version and changes only to tell an error: that of the last call for its component that failed, or that the component is not configured |
| ComponentOperations.DoRound | updatehandler/updatehandler.go:513-601 | One round of operations or reboots: refused before any call, or components are called once each in the state they had, by descending update priority for operations and reboot priority for reboots, with exactly the reboot requests made; the error told is that of a component called such that none of a higher priority failed; without stopOnError or error all configured components are called, otherwise exactly those at or above the priority of that one |
| ComponentOperations.RoundEffect | updatehandler/updatehandler.go:513-561 | Any order of the calls gives every component the same result, and collects exactly the reboot requests made |
| ComponentOperations.RoundFails | updatehandler/updatehandler.go:513-561 | The scheduler sees a failure if and only if a call made fails on the state the module had before the round; the first one is the answer of one of the calls with the highest priority of those that fail |
| PriorityOperations.DoPriorityOperations | updatehandler/updatehandler.go:454-511 | For any list and any interleaving within groups: groups run in turn by descending priority; without stopOnError or failure each operation runs exactly once, with stopOnError exactly those of the failing priority and above; an error iff an executed operation failed |
| PriorityOperations.ErrorFromHighestFailing | updatehandler/updatehandler.go:454-511 | No error means no executed operation failed; an error is that of an operation of the highest failing priority |
| PriorityOperations.SortByPriority | updatehandler/updatehandler.go:459 | The list is permuted into descending priority; the order of equals is open, as for an unstable sort |
| UpdateHandler.Handler.constructor | updatehandler/updatehandler.go:162-217 | A new handler continues from the stored record (or a new one), every module has been initialised, a component is in error exactly when its initialisation failed, and its version is reported as the record demands |
| UpdateHandler.Handler.Init | updatehandler/updatehandler.go:326-356 | Every module is initialised, highest update priority first and whatever fails; failures mark their component only, and versions are read |
| UpdateHandler.InitModules | updatehandler/updatehandler.go:326-356 | The modules' new states and the statuses marked by failures; the modules are initialised by descending update priority, in any order among equals |
| UpdateHandler.Handler.GetVersions | updatehandler/updatehandler.go:358-376 | The new statuses: the captured version during a transaction, else the module's own |
| UpdateHandler.Handler.OnStateChanged | updatehandler/updatehandler.go:414-445 | The settled state: versions and errors on return to idle, the record saved, or failed if it cannot be |
| UpdateHandler.Handler.OnComponents | updatehandler/updatehandler.go:603-640 | For any modules: within the given number of rounds the operation over the pending components has ended, absorbed into modules, statuses and stored versions, or some component asked for a reboot in each of them |
| UpdateHandler.Accept | updatehandler/updatehandler.go:746-769 | The loop over a request computes the acceptance the laws are about |
| UpdateHandler.Handler.OnPrepare | updatehandler/updatehandler.go:720-786 | A refused request leaves its bookkeeping and no call; an accepted one runs the prepare operation |
| UpdateHandler.Handler.PrepareUpdate | updatehandler/updatehandler.go:720-786 | The event is a step of the transition relation the run theorems quantify over |
| UpdateHandler.Handler.Transition | updatehandler/updatehandler.go:788-867 | Enters the target state, runs the operation and settles in what the relation says |
| UpdateHandler.NotAsking | updatehandler/updatehandler.go:603-640 | Modules whose rank drops on each reboot request do not still ask after bound + 1 rounds, so the events end |
| UpdateHandler.Handler.StartUpdate | updatehandler/updatehandler.go:788-819 | For any modules: the event is a step of the relation, or some component has asked for a reboot in each of the given number of rounds |
| UpdateHandler.Handler.ApplyUpdate | updatehandler/updatehandler.go:821-848 | Likewise for Apply |
| UpdateHandler.Handler.RevertUpdate | updatehandler/updatehandler.go:850-867 | Likewise for Revert |
| DualPartCalls.UpdateWritesPrepared | updatemodules/partitions/modules/dualpartmodule/dualpartmodule.go:246-312 | Over every run, whatever fails and however often it restarts: an Update that asks for a reboot has written the image at the path of the last Prepare that got as far as recording one, if that Prepare was accepted |
| SystemImages.RequestedImageIsWritten | updatehandler/updatehandler.go:642-819 | Over every run of the system, with failures, stops within events and restarts: if a request has led to prepared and the handler has not been idle since, an Update of a dual-partition module that asks for a reboot has written the image at the path that request named |
| DualPartCalls.RefusedPathIsWritten | updatemodules/partitions/modules/dualpartmodule/dualpartmodule.go:246-269 | Idle, a Prepare that is accepted and one whose record cannot be stored: the second fails, and an Update after it writes the image at the second path |
| DualPartCalls.RevertLeadsBack | updatemodules/partitions/modules/dualpartmodule/dualpartmodule.go:315-343 | A Revert of an update under way that does not fail has selected the other slot for the next boot; if that slot comes up it is the running one, and a new process that reads the record is in it, idle, with equal slots |
| DualPartCalls.PrepareExactly | updatemodules/partitions/modules/dualpartmodule/dualpartmodule.go:246-269 | Prepare is accepted if and only if no update is under way, the image is there and the record can be stored; then memory and storage say prepared with the path given and the update slot as before; refused before that it changes nothing |
| DualPartCalls.UpdateExactly | updatemodules/partitions/modules/dualpartmodule/dualpartmodule.go:272-312 | Update asks for a reboot if and only if the slot that is not running has been written with the image at the recorded path, selected in BootNext and recorded; it succeeds if and only if an update is under way in the running slot without a boot error; nothing else changes |
| DualPartCalls.RevertExactly | updatemodules/partitions/modules/dualpartmodule/dualpartmodule.go:315-343 | Revert copies the other slot over the update's and selects the other slot's entry in BootNext; it fails if and only if a step fails and asks for a reboot if and only if the update's slot is running |
| DualPartCalls.ApplyExactly | updatemodules/partitions/modules/dualpartmodule/dualpartmodule.go:346-372 | Apply is done if and only if no update is known or an update under way has been copied over the other slot and recorded; it never asks for a reboot and touches no boot variable |
| DualPartCalls.InitKeepsBootErr | updatemodules/partitions/modules/dualpartmodule/dualpartmodule.go:195-205 | Init does not replace the first boot error by a later one |
| DualPartModule.Module.Update | updatemodules/partitions/modules/dualpartmodule/dualpartmodule.go:272-312 | The object's whole new state, slots and boot variables included, and its answer are those of the function the run theorems are about, for any answers of devices and storage |
| DualPartModule.Module.Revert | updatemodules/partitions/modules/dualpartmodule/dualpartmodule.go:315-343 | Likewise for Revert |
| DualPartModule.Module.Apply | updatemodules/partitions/modules/dualpartmodule/dualpartmodule.go:346-372 | Likewise for Apply |
| DualPartModule.Module.Prepare | updatemodules/partitions/modules/dualpartmodule/dualpartmodule.go:246-269 | Likewise for Prepare |
| DualPartModule.Module.Init | updatemodules/partitions/modules/dualpartmodule/dualpartmodule.go:195-238 | Likewise for Init, with the deferred recording of the first boot error |
| DualPartModule.Module.SetState | updatemodules/partitions/modules/dualpartmodule/dualpartmodule.go:413-428 | The state is set in memory even when storing it fails |
| DualPartModule.Module.constructor | updatemodules/partitions/modules/dualpartmodule/dualpartmodule.go:144-173 | A new object has the volatile fields of a fresh process |
| DualPartModule.Start | updatemodules/efidualpart/register.go:77-88 | A starting process: the controller checks the boot order, the module is created over it and initialised; without a controller there is no module, exactly as in the function the run theorems restart with |
| BootOrderLaws.CheckedIsEffective | updatemodules/partitions/controllers/eficontroller/eficontroller.go:220-292 | Whenever the check completes, the order the firmware effectively follows is: module entries in their old order, missing module entries, the others in their old order, even when nothing had to be rewritten |
| BootOrderLaws.CheckKeepsOrder | updatemodules/partitions/controllers/eficontroller/eficontroller.go:220-292 | Whenever the check completes, of the order it leaves: two module entries of the old order stand as they did there, by first occurrence, and so do two foreign ones; module entries come before foreign ones; missing ones follow the present ones in the order of bootItems; the first entry is the old order's first module entry, if it has one; BootOrder is written only to change it, and nothing else is |
| BootOrderLaws.PastEndIff | updatemodules/partitions/controllers/eficontroller/eficontroller.go:269-281 | The comparison loop leaves its bounds if and only if the stored order has no repetition and no foreign entry and lacks a module entry |
| BootOrderLaws.PastEndInput | updatemodules/partitions/controllers/eficontroller/eficontroller.go:269-281 | The order [1] with module entries 1 and 2: the index leaves its bounds |
| BootOrderLaws.CheckIsIdempotent | updatemodules/partitions/controllers/eficontroller/eficontroller.go:220-292 | A second check finds the same order, rewrites nothing and stays in bounds |
| BootOrderLaws.CheckedLeads | updatemodules/partitions/controllers/eficontroller/eficontroller.go:220-292 | After a completed check the module entries are exactly the leading entries |
| BootOrderLaws.NormalisedMeaning | updatemodules/partitions/controllers/eficontroller/eficontroller.go:220-302 | The normalised order has no repetition and exactly the stored and the module entries |
| BootOrderLaws.PromotionKeepsModulesInFront | updatemodules/partitions/controllers/eficontroller/eficontroller.go:104-184 | With module entries leading, SetBootOK permutes the order and keeps them leading; GetMainBoot then finds its item and equals GetCurrentBoot if a module entry was booted |
| BootOrderLaws.PromotionKeepsNormal | updatemodules/partitions/controllers/eficontroller/eficontroller.go:139-184 | Promotion leaves an order the check would not change one it would not change |
| BootOrderLaws.CheckedOrder | updatemodules/partitions/controllers/eficontroller/eficontroller.go:220-292 | After a completed check the first entry is a module entry, all of them are in the order, and the first entry is unchanged if it was one |
| EfiController.Controller.CheckBootOrder | updatemodules/partitions/controllers/eficontroller/eficontroller.go:220-292 | All outcomes: unreadable or unwritable order, out of bounds, nothing to rewrite, or the normalised order written |
| EfiController.Controller.Divide | updatemodules/partitions/controllers/eficontroller/eficontroller.go:226-247 | One pass gives module entries and others, each once and in their order |
| EfiController.Controller.AddMissing | updatemodules/partitions/controllers/eficontroller/eficontroller.go:249-267 | The length guard never skips a missing entry, and missing ones are added in order, each once |
| EfiController.AllPresent | updatemodules/partitions/controllers/eficontroller/eficontroller.go:249-267 | Pigeonhole: as many distinct module entries as there are module items leave none missing |
| EfiController.Controller.Compare | updatemodules/partitions/controllers/eficontroller/eficontroller.go:271-281 | Equality as a prefix, a difference, or an index past the end of the stored order |
| EfiController.AppendIfNotExist | updatemodules/partitions/controllers/eficontroller/eficontroller.go:294-302 | Appends unless present |
| EfiController.Controller.SetBootOK | updatemodules/partitions/controllers/eficontroller/eficontroller.go:139-184 | The running module entry is exchanged with the first entry if it stands elsewhere; nothing else is written |
| EfiController.Promoted | updatemodules/partitions/controllers/eficontroller/eficontroller.go:165-181 | The exchange is a permutation |
| BootOrderLaws.BootOKSwaps | updatemodules/partitions/controllers/eficontroller/eficontroller.go:139-184 | A running module entry behind the first changes places with it, every other entry stays where it is, and nothing else changes in any case; it fails if and only if the order has to be written and cannot |
| BootOrderLaws.BootOKElsewhere | updatemodules/partitions/controllers/eficontroller/eficontroller.go:139-184 | A running entry that is not in the order changes nothing; it fails only on a variable that cannot be read |
| EfiController.Controller.SetMainBoot | updatemodules/partitions/controllers/eficontroller/eficontroller.go:126-136 | Only BootNext is written, with the slot's entry |
| Firmware.TriedOnce | updatemodules/partitions/controllers/eficontroller/eficontroller.go:126-136 | Over any power cycles the entry written there is tried in the first one and in no other |
| EfiController.Controller.GetMainBoot | updatemodules/partitions/controllers/eficontroller/eficontroller.go:104-123 | The index of the first entry, or the error cases |
| EfiController.Controller.GetCurrentBoot | updatemodules/partitions/controllers/eficontroller/eficontroller.go:85-101 | The index of the booted entry; an unknown entry counts as slot 0 |
| BootEntries.Instance.FindFreeNum | updatemodules/partitions/utils/efi/efi.go:472-488 | On any list sorted by id, repeated ids and wrap-around included: the id is unused if and only if some of the 65536 ids is; without wrap-around it is the least unused one from the first entry's on |
| BootEntries.Instance.CreateBootEntry | updatemodules/partitions/utils/efi/efi.go:330-371 | Keeps the list sorted, adds exactly one item under an unused id and appends that id to BootOrder; on any error both are unchanged |
| BootEntries.Instance.CheckPartitions | updatemodules/partitions/controllers/eficontroller/eficontroller.go:190-218 | It succeeds if and only if no lookup fails and every missing entry can be built and written into a readable BootOrder. Then every partition has the entry found or one created for it, BootOrder is the old one followed by exactly the ids created in turn, and exactly one named item has been added for each; otherwise the partitions before the first that does not work have been processed in this way. Created ids are unused and pairwise different while there is room |
| BootEntries.AllUsed | updatemodules/partitions/utils/efi/efi.go:472-488 | All ids are used exactly when there are 65536 distinct ones |
| BootEntries.SortById | updatemodules/partitions/utils/efi/efi.go:634-636 | The list is permuted into the order of ids |
| LittleEndian.ReadU16 | updatemodules/partitions/utils/efi/efi.go:397-422 | Decoding succeeds exactly on even lengths; the result encodes to the bytes read, the i-th id standing in bytes 2i and 2i+1, low byte first |
| LittleEndian.WriteU16 | updatemodules/partitions/utils/efi/efi.go:536-550 | Writes the encoding of the list, low byte first |
| LittleEndian.EncodeInjective | updatemodules/partitions/utils/efi/efi.go:397-550 | Different lists have different encodings, so reading back a written list gives that list |
| LittleEndian.NumberRoundTrip | updatemodules/partitions/utils/efi/efi.go:727-755 | A number that fits its width is recovered from its bytes |
| DevicePath.ParseDP | updatemodules/partitions/utils/efi/efi.go:661-709 | Returns one result per media node in order if the buffer is a path of well-formed nodes up to End-Entire, an error otherwise; it terminates on every byte string |
| DevicePath.ParseOfPrinted | updatemodules/partitions/utils/efi/efi.go:661-725 | For any well-formed nodes, an End-Entire node and any trailing bytes, exactly those nodes are found |
| DevicePath.PrintOfParsed | updatemodules/partitions/utils/efi/efi.go:661-725 | Nothing else is accepted: an accepted buffer is a printed path with its End-Entire node and what follows |
| DevicePath.FieldsOfPrinted | updatemodules/partitions/utils/efi/efi.go:727-755 | Every field of a Hard Drive node is recovered whatever bytes follow the fields |
| DevicePath.HardDriveLayout | updatemodules/partitions/utils/efi/efi.go:661-755 | A printed Hard Drive node has 42 bytes, with header 04 01 2A 00 and every field at its offset in section 10.3.5.1, numbers low byte first |
| DevicePath.EndLayout | updatemodules/partitions/utils/efi/efi.go:661-725 | Only type 7F with subtype FF ends a path; the end of one instance of a multi-instance path is a node like others |
| DevicePath.MeaningAt | updatemodules/partitions/utils/efi/efi.go:661-725 | The results are as many as the media nodes, and the one for each stands at its place among them: the fields of a hard drive, or that it is another medium |
| DevicePath.ParseHD | updatemodules/partitions/utils/efi/efi.go:727-755 | Field by field reading succeeds if and only if the payload holds all fields, and the fields read print as the bytes they came from |
| Overlay.UpdateSucceedsIff | updatemodules/partitions/modules/overlaymodule/overlaymodule.go:168-301 | After the reboot Update asked for, whatever the early boot code left, it succeeds if and only if the update is reported, the system has a version, and neither the early boot code nor the checker reports an error |
| Overlay.UpdateIsNotRepeatable | updatemodules/partitions/modules/overlaymodule/overlaymodule.go:266-301 | A successful Update consumes its flag: after one more restart without a new flag, with any version, the same Update fails |
| Overlay.RestartReadsRecord | updatemodules/partitions/modules/overlaymodule/overlaymodule.go:119-166 | A new process finds the record as stored; an accepted request stays prepared through restarts, and its Update then asks the early boot code for an update of its type |
| Overlay.PrepareExactly | updatemodules/partitions/modules/overlaymodule/overlaymodule.go:230-263 | Prepare is accepted if and only if no update is under way, the annotations are well formed, the directory can be cleared, the image moved and the record stored; then the image at the given path is the only file |
| Overlay.UpdateExactly | updatemodules/partitions/modules/overlaymodule/overlaymodule.go:266-301 | Update asks for a reboot if and only if its request and record could be written, and succeeds if and only if an update under way is running without a boot error and its report could be removed |
| Overlay.ApplyExactly | updatemodules/partitions/modules/overlaymodule/overlaymodule.go:304-338 | Apply asks for a reboot if and only if an update under way has no boot error and its request and record could be written, and is done if and only if an idle module could clear its directory |
| Overlay.RevertExactly | updatemodules/partitions/modules/overlaymodule/overlaymodule.go:341-363 | Revert of an update fails if and only if clearing or storing does, leaves no file otherwise, and asks for a reboot if and only if the update is running |
| Overlay.InitExactly | updatemodules/partitions/modules/overlaymodule/overlaymodule.go:168-212 | The version, whether the update is running, the files and the first boot error there is, from the files found |
| Overlay.ApplyTwice | updatemodules/partitions/modules/overlaymodule/overlaymodule.go:304-338 | Apply requests the installation and a reboot; called again after the restart, if the system has a version, it is done and the update directory is empty |
| Overlay.UpdateCycle | updatemodules/partitions/modules/overlaymodule/overlaymodule.go:230-338 | A whole update over both reboots, whatever the early boot code leaves: it is applied only if the image was reported as running, with a version and without a failure; the installation requested is of the type prepared, and the Apply after its reboot leaves an idle module and no file |
| Overlay.RollbackCycle | updatemodules/partitions/modules/overlaymodule/overlaymodule.go:230-363 | If the update was not reported, or with a failure, or the system has no version, or the checker objects, Update fails without effect, and a Revert that succeeds leaves an idle module and no file and asks for a reboot if and only if Init learned that the update was running |
| OverlayModule.Module.Prepare | updatemodules/partitions/modules/overlaymodule/overlaymodule.go:230-263 | The object's whole new state and answer are those of the function the laws are about |
| OverlayModule.Module.Update | updatemodules/partitions/modules/overlaymodule/overlaymodule.go:266-301 | Likewise for Update |
| OverlayModule.Module.Apply | updatemodules/partitions/modules/overlaymodule/overlaymodule.go:304-338 | Likewise for Apply |
| OverlayModule.Module.Revert | updatemodules/partitions/modules/overlaymodule/overlaymodule.go:341-363 | Likewise for Revert |
| OverlayModule.Module.Init | updatemodules/partitions/modules/overlaymodule/overlaymodule.go:168-212 | Likewise for Init, with the deferred recording of the first boot error |
| BootParams.SlotsIndependentOfBoot | updatemodules/partitions/utils/bootparams/bootparams.go:96-182 | In auto mode with suffixes that are no templates, booting from a detected slot detects the same slots and the same environment partition again if and only if that slot's suffix is all digits and not empty |
| BootParams.AutoDetects | updatemodules/partitions/utils/bootparams/bootparams.go:96-147 | From a root device that ends in a number, the slots are its name with each suffix in place of the whole number |
| BootParams.AutoFails | updatemodules/partitions/utils/bootparams/bootparams.go:96-147 | Detection in auto mode fails if and only if there is no root device or it does not end in a number |
| BootParams.EnvPartOf | updatemodules/partitions/utils/bootparams/bootparams.go:149-182 | The environment partition in every mode, and the errors |
| BootParams.LowerAt | updatemodules/partitions/utils/bootparams/bootparams.go:96-182 | Modes are compared without regard to the case of letters |
| BootParams.NumberlessSlotIsLost | updatemodules/partitions/utils/bootparams/bootparams.go:96-147 | Suffixes empty and 2, booted from the second slot or from the first: both slots in one case, an error in the other |
| BootParams.GetBootParts | updatemodules/partitions/utils/bootparams/bootparams.go:96-147 | The slots of every mode, or an error exactly when the mode's parameters are missing, empty or give no root device |
| BootParams.New | updatemodules/partitions/utils/bootparams/bootparams.go:67-93 | The last field with a name counts: name=value gives that value, with equals signs in it, and a bare name the empty one |
| BootParams.BaseOfConcat | updatemodules/partitions/utils/bootparams/bootparams.go:60 | The trailing run of digits is replaced in full, never a part of it |

## Left out

- Update modules as objects inside the handler: the handler is proved over modules that are values of any type with any
  functions as methods, so update in place and aliasing of module objects there are not captured; the module classes are
  proved equal to the functions used.
- A module that asks for reboots for ever keeps the code in its loop for ever; the methods of `Handler` return after any
  given number of rounds and say which was the case. Both modules modelled come to an end (`UpdateModules`).
- SystemRuns.IdleMeansCommitted: takes calls that succeed or do no harm, a Revert and an Apply of an update that do not
  fail, and new processes that read the record of a pending update; what other steps do to a module is `BenignExactly`.
- HandlerTransactions.VersionsNeverGoBack: takes as hypothesis that a module, when a request for it arrives, reports no
  version lower than the one stored for it; for dual-partition modules `StoredVersionsRise` proves it.
- SystemVersions.AppliedHoldsRequested: takes the runs of IdleMeansCommitted, and no revert open at the Apply; what
  happens otherwise is `AppliedHoldsExactly`.
- SystemVersions.StoredVersionsRise: takes such runs, with steps that are `Trusted`; takes the empty string to be no
  version, as SemVer does; and keeps the hypothesis of VersionsNeverGoBack for overlay modules, whose version is what
  the early boot code mounted.
- DualPartRuns.SettledAlways: takes calls that succeed or do no harm and restarts that read the record of a pending
  update; what other steps do to the slots is `BenignExactly`.
- HandlerTransactions.OnlyVerifiedIsApplied: says that components were verified when the record was stored; what a
  restart does to a module afterwards is up to the module.
- DualPartRuns.TrialVerdict: takes a new process that gets as far as reading the record, a condition on the boot
  variables and the answers before it.
- Creation of boot entries when a process starts: over a module's runs its entries exist; creating them is
  `BootEntries`.
- BootEntries.Instance.CreateBootEntry: the variable of an entry whose id could not be added to BootOrder stays in the
  firmware; only the list of entries and BootOrder are modelled.
- BootParams.SlotsIndependentOfBoot: takes suffixes without a dollar sign, which the regular-expression library would
  expand as a reference to the old number; its expansion is a parameter.
- Splitting the kernel command line at white space: the fields are given.
- A restart within a call is a call with a failing answer followed by a restart; a copy that fails leaves arbitrary
  content.
- The error of a component that is not configured is lost when errors do not stop the operation, as in the code; only
  its status keeps it.
- An unreadable firmware variable is an absent one; the codec and the parser are proved on bytes separately.
- Wrong argument types of the prepare event, error texts beyond a short form, logging, and the status messages sent.
- Downloads, checksums, gzip, mounting, version files, C calls into libefivar, building of load options, lookup of a
  boot entry by partition, configuration, SQL storage, gRPC client, rebooters: answers given as parameters.
- Early boot code that mounts the overlay and reads and writes its flag files: any files and version after a restart.
- ubootcontroller, sshmodule, testmodule and systemdchecker: thin, or dependent on code outside the repository.
- Event interleaving inside the state-machine library.
