/** The two kinds of update module behind the handler's interface, and what the handler and they achieve together. */
module UpdateModules {
  import opened Prelude
  import opened EfiController
  import opened Firmware
  import opened ComponentOperations
  import opened OperationLoop
  import opened HandlerSpec
  import opened HandlerRuns
  import opened HandlerTransactions
  import opened UpdateHandler
  import DualPart
  import DualPartRuns
  import Overlay

  datatype AnyModule = Dual(d: DualPart.Dual) | Over(o: Overlay.Overlay)

  /** How the outside answers the modules, as arbitrary functions of their states. */
  datatype Outside = Outside(
    dual: DualPart.Dual -> DualPart.Io, dualInit: DualPart.Dual -> DualPart.InitIo, over: Overlay.Overlay -> Overlay.Io,
    reboot: AnyModule -> Option<Error>, path: UpdateInfo -> string, updateType: UpdateInfo -> Option<string>,
    fetch: UpdateInfo -> Option<Error>, store: (string, nat) -> Option<Error>)

  function InitOf(out: Outside, m: AnyModule): Answer<AnyModule> {
    match m
    case Dual(d) => var (d', err) := DualPart.Init(d, out.dualInit(d)); Answer(Dual(d'), ToResult(err), false)
    case Over(o) => var (o', err) := Overlay.Init(o, out.over(o)); Answer(Over(o'), ToResult(err), false)
  }

  function PrepareOf(out: Outside, m: AnyModule, info: UpdateInfo): (AnyModule, Option<Error>) {
    match m
    case Dual(d) => var (d', err) := DualPart.Prepare(d, out.path(info), out.dual(d)); (Dual(d'), err)
    case Over(o) =>
      var (o', err) := Overlay.Prepare(o, out.path(info), out.updateType(info), out.over(o));
      (Over(o'), err)
  }

  function UpdateOf(out: Outside, m: AnyModule): (AnyModule, CallResult) {
    match m
    case Dual(d) => var (d', r) := DualPart.Update(d, out.dual(d)); (Dual(d'), r)
    case Over(o) => var (o', r) := Overlay.Update(o, out.over(o)); (Over(o'), r)
  }

  function ApplyOf(out: Outside, m: AnyModule): (AnyModule, CallResult) {
    match m
    case Dual(d) => var (d', r) := DualPart.Apply(d, out.dual(d)); (Dual(d'), r)
    case Over(o) => var (o', r) := Overlay.Apply(o, out.over(o)); (Over(o'), r)
  }

  function RevertOf(out: Outside, m: AnyModule): (AnyModule, CallResult) {
    match m
    case Dual(d) => var (d', r) := DualPart.Revert(d, out.dual(d)); (Dual(d'), r)
    case Over(o) => var (o', r) := Overlay.Revert(o, out.over(o)); (Over(o'), r)
  }

  function VersionOf(m: AnyModule): Result<string> {
    match m
    case Dual(d) => Ok(d.version)
    case Over(o) => Ok(o.version)
  }

  function EnvOf(out: Outside): Env<AnyModule> {
    Env(m => InitOf(out, m), (m, info) => PrepareOf(out, m, info), m => UpdateOf(out, m), m => ApplyOf(out, m),
        m => RevertOf(out, m), m => (m, out.reboot(m)), m => VersionOf(m), out.fetch, out.store)
  }

  // ---------------------------------------------------------------- reboot requests

  /** How often a module may still ask for a reboot within one event. */
  function UpdateRank(m: AnyModule): nat {
    match m
    case Dual(d) => if d.state.state == DualPart.Prepared then 1 else 0
    case Over(o) => if o.state.state == Overlay.Prepared then 1 else 0
  }

  function ApplyRank(m: AnyModule): nat {
    match m
    case Dual(_) => 0
    case Over(o) => if o.state.state == Overlay.Updated then 1 else 0
  }

  function RevertRank(m: AnyModule): nat {
    match m
    case Dual(d) => if d.state.state != DualPart.Idle then 1 else 0
    case Over(o) => if o.state.state != Overlay.Idle then 1 else 0
  }

  lemma UpdateRanksDrop(out: Outside)
    ensures RanksDrop(UpdateCalls(EnvOf(out)), m => UpdateRank(m)) && forall m :: UpdateRank(m) <= 1
  {
    forall m: AnyModule
      ensures UpdateOf(out, m).1 == RebootRequired ==> UpdateRank(UpdateOf(out, m).0) < UpdateRank(m)
    {
      UpdateRankDrops(out, m);
    }
    hide UpdateOf;
  }

  lemma UpdateRankDrops(out: Outside, m: AnyModule)
    ensures UpdateOf(out, m).1 == RebootRequired ==> UpdateRank(UpdateOf(out, m).0) < UpdateRank(m)
  {
  }

  lemma ApplyRanksDrop(out: Outside)
    ensures RanksDrop(ApplyCalls(EnvOf(out)), m => ApplyRank(m)) && forall m :: ApplyRank(m) <= 1
  {
    forall m: AnyModule
      ensures ApplyOf(out, m).1 == RebootRequired ==> ApplyRank(ApplyOf(out, m).0) < ApplyRank(m)
    {
      ApplyRankDrops(out, m);
    }
    hide ApplyOf;
  }

  lemma ApplyRankDrops(out: Outside, m: AnyModule)
    ensures ApplyOf(out, m).1 == RebootRequired ==> ApplyRank(ApplyOf(out, m).0) < ApplyRank(m)
  {
  }

  lemma RevertRanksDrop(out: Outside)
    ensures RanksDrop(RevertCalls(EnvOf(out)), m => RevertRank(m)) && forall m :: RevertRank(m) <= 1
  {
    forall m: AnyModule
      ensures RevertOf(out, m).1 == RebootRequired ==> RevertRank(RevertOf(out, m).0) < RevertRank(m)
    {
      RevertRankDrops(out, m);
    }
    hide RevertOf;
  }

  lemma RevertRankDrops(out: Outside, m: AnyModule)
    ensures RevertOf(out, m).1 == RebootRequired ==> RevertRank(RevertOf(out, m).0) < RevertRank(m)
  {
  }

  function CallsOf(out: Outside, event: HandlerSpec.Event): Calls<AnyModule>
    requires !event.Prepare?
  {
    match event
    case Update => UpdateCalls(EnvOf(out))
    case Apply => ApplyCalls(EnvOf(out))
    case Revert => RevertCalls(EnvOf(out))
  }

  /** Both kinds of module need at most one reboot per event: no event operates on a module more than twice or reboots
      it more than once, even when reboots fail and errors do not stop the loop. */
  lemma AtMostTwice(out: Outside, event: HandlerSpec.Event, stopOnError: bool, entries: map<string, Entry<AnyModule>>,
                    entries': map<string, Entry<AnyModule>>, err: Option<Error>, id: string)
    requires !event.Prepare? && Outcome(CallsOf(out, event), stopOnError, entries, entries', err)
    requires Configured(entries, id) && entries[id].history == []
    ensures CountOf(entries'[id].history, Operate) <= 2 &&
            CountOf(entries'[id].history, ComponentOperations.Reboot) <= 1
  {
    hide Outcome, RanksDrop;
    match event
    case Update =>
      UpdateRanksDrop(out);
      LoopBound(UpdateCalls(EnvOf(out)), stopOnError, entries, entries', err, m => UpdateRank(m), 1, id);
    case Apply =>
      ApplyRanksDrop(out);
      LoopBound(ApplyCalls(EnvOf(out)), stopOnError, entries, entries', err, m => ApplyRank(m), 1, id);
    case Revert =>
      RevertRanksDrop(out);
      LoopBound(RevertCalls(EnvOf(out)), stopOnError, entries, entries', err, m => RevertRank(m), 1, id);
  }

  // ---------------------------------------------------------------- the handler with its modules

  predicate KnownModule(m: AnyModule) {
    m.Dual? ==> DualPartRuns.Known(m.d)
  }

  /** When the handler settles in updated, a dual-partition component has been updated, has no boot error, and its
      version is the requested one. It runs from the slot that was updated exactly if it is not the case that slot 0
      was, while the machine runs from an entry that is none of the module's. */
  lemma UpdatedRunsTheUpdate(out: Outside, semver: Precedence, saveOk: bool, v: View<AnyModule>, v': View<AnyModule>,
                             id: string)
    requires Invariant(v) && v.fsm == StatePrepared
    requires EventStep(EnvOf(out), semver, HandlerSpec.Update, saveOk, v, v') && v'.fsm == StateUpdated
    requires id in v.state.statuses && id in v'.components && v'.components[id].updateModule.Dual?
    requires KnownModule(v.components[id].updateModule)
    ensures var d := v'.components[id].updateModule.d;
      && d.state.state == DualPart.Updated && d.bootErr.None? && d.version == v.state.statuses[id].version
      && d.currentPartition == d.state.updatePartition
      && (DualPartRuns.RunsUpdate(d) <==> !DualPartRuns.Mistaken(d))
  {
    hide EventStep, CalledLast;
    UpdatedIsVerified(EnvOf(out), semver, saveOk, v, v');
    var after: Entry<AnyModule> :|
      after.component == Some(v'.components[id]) && Verified(EnvOf(out), id, Entries(v)[id], after);
    VerifiedDual(out, id, Entries(v)[id], after);
  }

  lemma VerifiedDual(out: Outside, id: string, before: Entry<AnyModule>, after: Entry<AnyModule>)
    requires Verified(EnvOf(out), id, before, after) && after.component.value.updateModule.Dual?
    requires KnownModule(before.component.value.updateModule)
    ensures var d := after.component.value.updateModule.d;
      && d.state.state == DualPart.Updated && d.bootErr.None? && d.version == before.status.version
      && d.currentPartition == d.state.updatePartition
      && (DualPartRuns.RunsUpdate(d) <==> !DualPartRuns.Mistaken(d))
  {
    UpdateKeepsKnown(out);
    ReachedKeeps(UpdateCalls(EnvOf(out)), id, before, after, m => KnownModule(m));
    var last := after.history[|after.history| - 1];
    hide CalledLast, UpdateCalls;
    assert UpdateOf(out, last.before) == (after.component.value.updateModule, Done);
    var d := last.before.d;
    assert after.component.value.updateModule.d == d;
    DualPartRuns.DoneRunsUpdate(d, out.dual(d));
  }

  lemma UpdateKeepsKnown(out: Outside)
    ensures var calls := UpdateCalls(EnvOf(out));
      && (forall id, version, made, m :: KnownModule(m) ==> KnownModule(calls.operate(id, version, made, m).next))
      && (forall m :: KnownModule(m) ==> KnownModule(calls.reboot(m).next))
  {
    forall m: AnyModule | KnownModule(m) ensures KnownModule(UpdateOf(out, m).0) {
    }
  }

  /** Anything but the new slot came up after an update: the update event ends in failed, whatever the other components
      do, and the revert after it brings the handler to idle and both slots to the committed content. */
  lemma FailedBootIsRolledBack(r: DualPartRuns.Run, boots: seq<Up>, initIo: DualPart.InitIo, out: Outside,
                               semver: Precedence, saveOk: bool, out2: Outside, v: View<AnyModule>, v1: View<AnyModule>,
                               v2: View<AnyModule>, id: string)
    requires DualPartRuns.TrialPending(r) && DualPartRuns.Starts(r.d, boots, initIo) && initIo.loadOk
    requires DualPartRuns.NotTheNewSlot(r.d, PowerCycles(r.d.vars, boots).current)
    requires Invariant(v) && v.fsm == StatePrepared && id in v.state.statuses
    requires v.components[id].updateModule == Dual(DualPartRuns.Restarted(r.d, boots, initIo))
    requires EventStep(EnvOf(out), semver, HandlerSpec.Update, saveOk, v, v1)
    requires EventStep(EnvOf(out2), semver, HandlerSpec.Revert, true, v1, v2)
    requires var d := DualPartRuns.Restarted(r.d, boots, initIo); !DualPart.Revert(d, out2.dual(d)).1.Failed?
    ensures v1.fsm == StateFailed && v2.fsm == StateIdle
    ensures id in v2.components && v2.components[id].updateModule.Dual?
         && v2.components[id].updateModule.d.contents == [r.committed, r.committed]
  {
    hide EventStep, DualPartRuns.Restarted, DualPartRuns.Starts, PowerCycles, DualPartRuns.TrialPending,
        DualPart.Revert;
    var d := DualPartRuns.Restarted(r.d, boots, initIo);
    DualPartRuns.FallbackIsSafe(r, boots, initIo, out.dual(d), out2.dual(d));
    assert UpdateOf(out, Dual(d)) == (Dual(d), Failed("update was failed"));
    FailedUpdateFails(EnvOf(out), semver, saveOk, v, v1, id);
    FailedUpdateKeepsModule(EnvOf(out), semver, saveOk, v, v1, id);
    StepKeepsInvariant(semver, Happens(EnvOf(out), HandlerSpec.Update, saveOk), v, v1);
    RevertReachesAll(EnvOf(out2), semver, true, v1, v2, id);
    EventReachesTarget(EnvOf(out2), semver, HandlerSpec.Revert, true, v1, v2);
  }

  predicate KeptAsError<M>(v: View<M>, id: string) {
    id in v.state.statuses && v.state.statuses[id].status == InError
  }

  /** After Apply from updated, a dual-partition component that is not kept as an error has the requested version
      stored. Its slots are equal exactly if they were before or the module knew of the update; then the module is idle,
      in memory and in storage, and both slots hold the image of the updated one. A module that did not know is trusted
      to have applied the update already. */
  lemma AppliedHoldsUpdate(out: Outside, semver: Precedence, saveOk: bool, v: View<AnyModule>, v': View<AnyModule>,
                           id: string)
    requires Invariant(v) && v.fsm == StateUpdated && EventStep(EnvOf(out), semver, HandlerSpec.Apply, saveOk, v, v')
    requires id in v.state.statuses && v.components[id].updateModule.Dual?
    ensures KeptAsError(v', id) || (
              && id in v'.versions && v'.versions[id] == v.state.statuses[id].version
              && id in v'.components && v'.components[id].updateModule.Dual?
              && var before, after := v.components[id].updateModule.d, v'.components[id].updateModule.d;
                 && (DualPartRuns.SlotsEqual(after) <==>
                       before.state.state == DualPart.Updated || DualPartRuns.SlotsEqual(before))
                 && (before.state.state == DualPart.Updated ==> Committed(before, after))
                 && (before.state.state != DualPart.Updated ==> after == before && before.state.state == DualPart.Idle))
  {
    AppliedIsStored(EnvOf(out), semver, saveOk, v, v', id);
    var d := v.components[id].updateModule.d;
    ApplyOnce(EnvOf(out), semver, saveOk, v, v', id);
    StatusesInError(out, semver, saveOk, v, v', id);
    hide EventStep, Invariant;
    assert ApplyOf(out, Dual(d)) == (Dual(DualPart.Apply(d, out.dual(d)).0), DualPart.Apply(d, out.dual(d)).1);
    ApplyCopiesBack(d, out.dual(d));
  }

  /** What is kept of a request in idle are errors. */
  lemma StatusesInError(out: Outside, semver: Precedence, saveOk: bool, v: View<AnyModule>, v': View<AnyModule>,
                        id: string)
    requires Invariant(v) && v.fsm == StateUpdated && EventStep(EnvOf(out), semver, HandlerSpec.Apply, saveOk, v, v')
    ensures id in v'.state.statuses ==> KeptAsError(v', id)
  {
    assert OperationEvent(EnvOf(out), ApplyCalls(EnvOf(out)), StateIdle, false, saveOk, v, v');
    hide EventStep, OperationEvent, ApplyCalls, Invariant, EnvOf;
    var _, _ := InsideEvent(EnvOf(out), ApplyCalls(EnvOf(out)), StateIdle, false, saveOk, v, v');
  }

  predicate Committed(before: DualPart.Dual, after: DualPart.Dual) {
    var image := before.contents[before.state.updatePartition];
    after.contents == [image, image] && after.state.state == DualPart.Idle && after.stored == Some(after.state)
  }

  lemma ApplyCopiesBack(d: DualPart.Dual, io: DualPart.Io)
    ensures var (d', result) := DualPart.Apply(d, io);
      && result != RebootRequired
      && (!result.Failed? && d.state.state == DualPart.Updated ==> Committed(d, d') && DualPartRuns.SlotsEqual(d'))
      && (!result.Failed? && d.state.state != DualPart.Updated ==> d' == d && d.state.state == DualPart.Idle)
  {
  }
}
