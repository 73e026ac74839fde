/** What runs of the whole system guarantee about versions: which image an Apply leaves, and which runs meet the
    contract that keeps stored versions from going back. */
module SystemVersions {
  import opened Prelude
  import opened ComponentOperations
  import opened OperationLoop
  import opened HandlerSpec
  import opened HandlerRuns
  import opened HandlerTransactions
  import opened UpdateModules
  import opened SystemRuns
  import DualPart
  import DualPartRuns

  // ---------------------------------------------------------------- one module

  /** Memory and storage agree on an update under way; without one both slots are equal. */
  predicate SettledDual(d: DualPart.Dual) {
    DualPartRuns.Coherent(d) && (d.state.state != DualPart.Updated ==> DualPartRuns.SlotsEqual(d))
  }

  /** The image a Revert brings back. */
  function CommittedImage(d: DualPart.Dual): DualPart.Image {
    d.contents[DualPart.Other(d.state.updatePartition)]
  }

  /** The image an Apply leaves. */
  function AppliedImage(d: DualPart.Dual): DualPart.Image {
    d.contents[d.state.updatePartition]
  }

  /** The slot a complete event overwrites while an update is under way; it is not the running one. */
  predicate KeepsRunning(event: Event, d: DualPart.Dual) {
    d.state.state == DualPart.Updated ==>
      && (event.Apply? ==> d.currentPartition == d.state.updatePartition)
      && (event.Revert? ==> d.currentPartition != d.state.updatePartition)
  }

  /** A module that runs from the slot of its update has read that slot's version. */
  predicate ReadsUpdate(d: DualPart.Dual) {
    d.state.state == DualPart.Updated && d.currentPartition == d.state.updatePartition ==> DualPartRuns.ReadsVersion(d)
  }

  predicate ModuleSettled(m: AnyModule) {
    m.Dual? ==> SettledDual(m.d)
  }

  predicate ModuleTrue(m: AnyModule) {
    m.Dual? ==> SettledDual(m.d) && ReadsUpdate(m.d)
  }

  /** In a module that reads its version, no call of the event overwrites the running slot. */
  predicate ModuleReads(event: Event, m: AnyModule) {
    m.Dual? ==> SettledDual(m.d) && DualPartRuns.ReadsVersion(m.d) && KeepsRunning(event, m.d)
  }

  predicate ModuleApplies(m: AnyModule, image: DualPart.Image) {
    m.Dual? ==> SettledDual(m.d) && AppliedImage(m.d) == image
  }

  predicate ModuleCommitted(m: AnyModule, image: DualPart.Image) {
    m.Dual? ==> SettledDual(m.d) && CommittedImage(m.d) == image
  }

  lemma SettledRun(d: DualPart.Dual)
    ensures SettledDual(d) <==> DualPartRuns.Settled(DualPartRuns.Run(d, CommittedImage(d), AppliedImage(d), {}))
  {
    assert DualPart.Other(d.state.updatePartition) != d.state.updatePartition;
  }

  lemma SettledAgain(r: DualPartRuns.Run)
    requires DualPartRuns.Settled(r)
    ensures SettledDual(r.d) && CommittedImage(r.d) == r.committed
  {
  }

  /** What one step of a careful event keeps. Only Apply changes the committed image, and only Update the
      applied one. */
  lemma StepKeeps(event: Event, d: DualPart.Dual, s: DualPartRuns.Step)
    requires StepOfEvent(event, s) && CarefulStep(event, d, s) && SettledDual(d)
    ensures SettledDual(DualPartRuns.NextDual(d, s))
    ensures ReadsUpdate(d) ==> ReadsUpdate(DualPartRuns.NextDual(d, s))
    ensures !event.Apply? ==> CommittedImage(DualPartRuns.NextDual(d, s)) == CommittedImage(d)
    ensures event.Apply? ==> AppliedImage(DualPartRuns.NextDual(d, s)) == AppliedImage(d)
    ensures DualPartRuns.ReadsVersion(d) && KeepsRunning(event, d) ==>
              DualPartRuns.ReadsVersion(DualPartRuns.NextDual(d, s)) && KeepsRunning(event, DualPartRuns.NextDual(d, s))
  {
    var r := DualPartRuns.Run(d, CommittedImage(d), AppliedImage(d), {});
    SettledRun(d);
    DualPartRuns.SuccessKeepsSettled(r, s);
    SettledAgain(DualPartRuns.Next(r, s));
    match s
    case Prepare(_, _) =>
    case Update(_) =>
    case Apply(_) =>
    case Revert(_) =>
  }

  lemma CallKeeps(out: Outside, semver: Precedence, v: View<AnyModule>, event: Event, id: string, version: string,
                  made: nat, m: AnyModule, image: DualPart.Image)
    requires Careful(out, event)
    ensures var m' := EventCalls(out, semver, v, event).operate(id, version, made, m).next;
      && (ModuleSettled(m) ==> ModuleSettled(m'))
      && (ModuleTrue(m) ==> ModuleTrue(m'))
      && (!event.Apply? && ModuleCommitted(m, image) ==> ModuleCommitted(m', image))
      && (event.Apply? && ModuleApplies(m, image) ==> ModuleApplies(m', image))
      && (ModuleReads(event, m) ==> ModuleReads(event, m'))
  {
    hide EventCalls;
    OverStaysOver(out, semver, v, event, id, version, made, m);
    if m.Dual? && SettledDual(m.d) {
      var step := OneCall(out, semver, v, event, id, version, made, m.d);
      if step.Some? {
        CarefulEverywhere(out, event, m.d);
        StepKeeps(event, m.d, step.value);
      }
    }
  }

  /** The same for any number of calls of an event, complete or not. */
  lemma EntryKeepsImages(out: Outside, semver: Precedence, v: View<AnyModule>, event: Event, id: string,
                         e0: Entry<AnyModule>, e: Entry<AnyModule>, image: DualPart.Image)
    requires Careful(out, event) && e0.component.Some? && Reached(EventCalls(out, semver, v, event), id, e0, e)
    ensures e.component.Some?
    ensures var m, m' := e0.component.value.updateModule, e.component.value.updateModule;
      && (ModuleSettled(m) ==> ModuleSettled(m'))
      && (ModuleTrue(m) ==> ModuleTrue(m'))
      && (!event.Apply? && ModuleCommitted(m, image) ==> ModuleCommitted(m', image))
      && (event.Apply? && ModuleApplies(m, image) ==> ModuleApplies(m', image))
      && (ModuleReads(event, m) ==> ModuleReads(event, m'))
  {
    hide EventCalls, Reached, ModuleSettled, ModuleTrue, ModuleCommitted, ModuleApplies, ModuleReads, Careful;
    var calls, m, version := EventCalls(out, semver, v, event), e0.component.value.updateModule, e0.status.version;
    forall made: nat, x: AnyModule
      ensures ModuleSettled(x) ==> ModuleSettled(calls.operate(id, version, made, x).next)
      ensures ModuleTrue(x) ==> ModuleTrue(calls.operate(id, version, made, x).next)
      ensures !event.Apply? && ModuleCommitted(x, image) ==>
              ModuleCommitted(calls.operate(id, version, made, x).next, image)
      ensures event.Apply? && ModuleApplies(x, image) ==> ModuleApplies(calls.operate(id, version, made, x).next, image)
      ensures ModuleReads(event, x) ==> ModuleReads(event, calls.operate(id, version, made, x).next)
    {
      CallKeeps(out, semver, v, event, id, version, made, x, image);
    }
    forall x: AnyModule ensures calls.reboot(x).next == x {
      OverStaysOver(out, semver, v, event, id, version, 0, x);
    }
    HasComponent(calls, id, e0, e);
    if ModuleSettled(m) { ReachedKeeps(calls, id, e0, e, x => ModuleSettled(x)); }
    if ModuleTrue(m) { ReachedKeeps(calls, id, e0, e, x => ModuleTrue(x)); }
    if !event.Apply? && ModuleCommitted(m, image) { ReachedKeeps(calls, id, e0, e, x => ModuleCommitted(x, image)); }
    if event.Apply? && ModuleApplies(m, image) { ReachedKeeps(calls, id, e0, e, x => ModuleApplies(x, image)); }
    if ModuleReads(event, m) { ReachedKeeps(calls, id, e0, e, x => ModuleReads(event, x)); }
  }

  /** A restart that reads the record of a pending update keeps what the slots mean, and reads the version. */
  lemma RestartKeepsImages(l: SystemLabel, d: DualPart.Dual)
    requires l.Stops? && Created(l, Dual(d)).Some? && SettledDual(d)
    requires DualPartRuns.Succeeds(d, DualPartRuns.Restart(l.boots, RestartIo(l, d)))
    ensures var m := InitOf(l.next, Created(l, Dual(d)).value).next;
      && m.Dual? && SettledDual(m.d) && DualPartRuns.ReadsVersion(m.d)
      && CommittedImage(m.d) == CommittedImage(d) && AppliedImage(m.d) == AppliedImage(d)
  {
    InitIsRestart(l, d);
    DualPartRuns.AfterRestart(d, l.boots, RestartIo(l, d));
    hide DualPartRuns.Restarted, DualPartRuns.Starts, DualPartRuns.ReadsRecord, DualPartRuns.ReadsVersion, InitOf,
         Created, RestartIo, DualPartRuns.Known;
    EqualSlots(d);
  }

  lemma EqualSlots(d: DualPart.Dual)
    ensures DualPartRuns.SlotsEqual(d) ==> forall a: DualPart.Slot, b: DualPart.Slot :: d.contents[a] == d.contents[b]
  {
  }

  // ---------------------------------------------------------------- one component, within an event

  /** A component as an event may have left it: the slots mean what they meant, except that Apply makes the applied
      image the committed one. */
  lemma LeftKeepsImages(out: Outside, semver: Precedence, v: View<AnyModule>, event: Event, id: string,
                        component: Component<AnyModule>, stored: Option<string>)
    requires Careful(out, event) && id in v.components && LeftBy(out, semver, v, event, id, component, stored)
    requires v.components[id].updateModule.Dual? && SettledDual(v.components[id].updateModule.d)
    ensures component.updateModule.Dual? && SettledDual(component.updateModule.d)
    ensures ReadsUpdate(v.components[id].updateModule.d) ==> ReadsUpdate(component.updateModule.d)
    ensures !event.Apply? ==>
              CommittedImage(component.updateModule.d) == CommittedImage(v.components[id].updateModule.d)
    ensures event.Apply? ==> AppliedImage(component.updateModule.d) == AppliedImage(v.components[id].updateModule.d)
    ensures ModuleReads(event, v.components[id].updateModule) ==> ModuleReads(event, component.updateModule)
  {
    hide Careful, ModuleReads, SettledDual, ReadsUpdate, EventCalls;
    if component != v.components[id] {
      var d := v.components[id].updateModule.d;
      var calls, begun := EventCalls(out, semver, v, event), Begun(v, event);
      var e: Entry<AnyModule> :| Leads(calls, begun, id, e, component, stored);
      StaysDual(out, semver, v, event, id, Entries(begun)[id], e);
      EntryKeepsImages(out, semver, v, event, id, Entries(begun)[id], e, CommittedImage(d));
      EntryKeepsImages(out, semver, v, event, id, Entries(begun)[id], e, AppliedImage(d));
    }
  }

  lemma StaysDual(out: Outside, semver: Precedence, v: View<AnyModule>, event: Event, id: string, e0: Entry<AnyModule>,
                  e: Entry<AnyModule>)
    requires e0.component.Some? && Reached(EventCalls(out, semver, v, event), id, e0, e) &&
             e0.component.value.updateModule.Dual?
    ensures e.component.Some? && e.component.value.updateModule.Dual?
  {
    hide EventCalls, Reached;
    var calls := EventCalls(out, semver, v, event);
    forall made: nat, m: AnyModule
      ensures calls.operate(id, e0.status.version, made, m).next.Dual? == m.Dual?
    {
      OverStaysOver(out, semver, v, event, id, e0.status.version, made, m);
    }
    forall m: AnyModule ensures calls.reboot(m).next == m {
      OverStaysOver(out, semver, v, event, id, e0.status.version, 0, m);
    }
    ReachedKeeps(calls, id, e0, e, (m: AnyModule) => m.Dual?);
  }

  /** Only Apply stores versions, and only the requested one, after the module has ended its update. */
  lemma LeftStores(out: Outside, semver: Precedence, v: View<AnyModule>, event: Event, id: string,
                   component: Component<AnyModule>, stored: Option<string>)
    requires Careful(out, event) && id in v.components && LeftBy(out, semver, v, event, id, component, stored)
    ensures stored == Lookup(v.versions, id) || (event.Apply? && v.fsm == StateUpdated && id in v.state.statuses
                                                 && stored == Some(v.state.statuses[id].version))
    ensures event.Apply? ==>
              (component == v.components[id] && stored == Lookup(v.versions, id)) || !IsUpdated(component.updateModule)
  {
    if !(component == v.components[id] && stored == Lookup(v.versions, id)) {
      var calls, begun := EventCalls(out, semver, v, event), Begun(v, event);
      var e: Entry<AnyModule> :| Leads(calls, begun, id, e, component, stored);
      var e0 := Entries(begun)[id];
      hide IsUpdated, Careful;
      CallsNeverStore(EnvOf(out), semver, map[]);
      if event.Prepare? { CallsNeverStore(EnvOf(out), semver, Accepted(v.installed, event.infos).infos); }
      if event.Apply? {
        assert e.history != [];
        EndsUpdate(out, semver, v, event, id, e0, e);
      } else {
        EntryStoresNothing(calls, id, e0, e);
      }
    }
  }

  lemma EndsUpdate(out: Outside, semver: Precedence, v: View<AnyModule>, event: Event, id: string, e0: Entry<AnyModule>,
                   e: Entry<AnyModule>)
    requires Careful(out, event) && event.Apply? && e0.component.Some? && e.history != []
    requires Reached(EventCalls(out, semver, v, event), id, e0, e)
    ensures e.component.Some? && !IsUpdated(e.component.value.updateModule)
  {
    hide EventCalls, Reached, IsUpdated, Careful;
    var calls, version := EventCalls(out, semver, v, event), e0.status.version;
    forall made: nat, m: AnyModule ensures !IsUpdated(calls.operate(id, version, made, m).next) {
      CallKeepsModule(out, semver, v, event, id, version, made, m);
    }
    forall m: AnyModule ensures calls.reboot(m).next == m {
      OverStaysOver(out, semver, v, event, id, version, 0, m);
    }
    ReachedEstablishes(calls, id, e0, e, m => !IsUpdated(m));
  }

  // ---------------------------------------------------------------- the images of a record

  /** What a record in updated says is in the slots that Apply will copy from. */
  ghost predicate HoldsRequested(v: View<AnyModule>, record: HandlerState) {
    record.updateState == StateUpdated ==>
      forall id :: id in record.statuses && id in v.components && v.components[id].updateModule.Dual? ==>
        AppliedImage(v.components[id].updateModule.d).version == Some(record.statuses[id].version)
  }

  /** Unless a revert is open, the images are those of the record. */
  ghost predicate ImageInvariant(v: View<AnyModule>, open: bool) {
    && SystemInvariant(v)
    && (forall id :: id in v.components ==> ModuleTrue(v.components[id].updateModule))
    && (!open ==> HoldsRequested(v, v.state) && HoldsRequested(v, v.saved))
  }

  /** Apply copies from the same slot whatever the step does to the module. */
  predicate SameApplied(m: AnyModule, m': AnyModule) {
    m'.Dual? == m.Dual? && (m.Dual? ==> AppliedImage(m'.d) == AppliedImage(m.d))
  }

  /** A Revert the handler acts on, complete or not. */
  predicate RevertsAt(l: SystemLabel, v: View<AnyModule>) {
    EventOf(l) == Some(Revert) && v.fsm != StateIdle
  }

  /** Whether a revert is open after the step: modules may have carried it out while the stored record says updated. */
  predicate OpenAfter(l: SystemLabel, v: View<AnyModule>, v': View<AnyModule>, open: bool) {
    v'.saved.updateState == StateUpdated && (open || RevertsAt(l, v))
  }

  /** A component as an event, complete or not, may have left it. */
  lemma LeftTrue(out: Outside, semver: Precedence, v: View<AnyModule>, event: Event, id: string,
                 component: Component<AnyModule>, stored: Option<string>)
    requires Careful(out, event) && id in v.components && LeftBy(out, semver, v, event, id, component, stored)
    requires ModuleTrue(v.components[id].updateModule)
    ensures ModuleTrue(component.updateModule) && component.updateModule.Dual? == v.components[id].updateModule.Dual?
    ensures event.Apply? || component == v.components[id] ==>
              SameApplied(v.components[id].updateModule, component.updateModule)
  {
    hide LeftBy, Careful, SettledDual, ReadsUpdate;
    if v.components[id].updateModule.Dual? {
      LeftKeepsImages(out, semver, v, event, id, component, stored);
    } else {
      StaysOver(out, semver, v, event, id, component, stored);
    }
  }

  lemma StaysOver(out: Outside, semver: Precedence, v: View<AnyModule>, event: Event, id: string,
                  component: Component<AnyModule>, stored: Option<string>)
    requires id in v.components && LeftBy(out, semver, v, event, id, component, stored) &&
             v.components[id].updateModule.Over?
    ensures component.updateModule.Over?
  {
    hide EventCalls;
    if component != v.components[id] {
      var calls, begun := EventCalls(out, semver, v, event), Begun(v, event);
      var e: Entry<AnyModule> :| Leads(calls, begun, id, e, component, stored);
      forall made: nat, m: AnyModule
        ensures calls.operate(id, Entries(begun)[id].status.version, made, m).next.Over? == m.Over?
      {
        OverStaysOver(out, semver, v, event, id, Entries(begun)[id].status.version, made, m);
      }
      forall m: AnyModule ensures calls.reboot(m).next == m {
        OverStaysOver(out, semver, v, event, id, "", 0, m);
      }
      ReachedKeeps(calls, id, Entries(begun)[id], e, (m: AnyModule) => m.Over?);
    }
  }

  /** A component Apply has got to holds the requested version in both slots. */
  lemma AppliedOK(out: Outside, semver: Precedence, v: View<AnyModule>, event: Event, id: string,
                  component: Component<AnyModule>, stored: Option<string>)
    requires ImageInvariant(v, false) && Careful(out, event) && id in v.components && event.Apply?
    requires v.components[id].updateModule.Dual? && component.updateModule.Dual? &&
             SettledDual(component.updateModule.d)
    requires AppliedImage(component.updateModule.d) == AppliedImage(v.components[id].updateModule.d)
    requires LeftBy(out, semver, v, event, id, component, stored)
    requires !(component == v.components[id] && stored == Lookup(v.versions, id))
    ensures v.fsm == StateUpdated && id in v.state.statuses && !IsUpdated(component.updateModule)
    ensures stored == Lookup(v.versions, id) || stored == Some(v.state.statuses[id].version)
    ensures CommittedImage(component.updateModule.d).version == Some(v.state.statuses[id].version)
  {
    LeftStores(out, semver, v, event, id, component, stored);
    assert v.fsm == StateUpdated && id in v.state.statuses && v.state.updateState == StateUpdated;
    hide LeftBy, Careful, Linked, ModulesOK;
    EqualSlots(component.updateModule.d);
  }

  // ---------------------------------------------------------------- the images of a record, over events

  lemma EventKeepsTrue(out: Outside, semver: Precedence, event: Event, saveOk: bool, v: View<AnyModule>,
                       v': View<AnyModule>, id: string)
    requires ImageInvariant(v, true) && Careful(out, event) && EventStep(EnvOf(out), semver, event, saveOk, v, v')
    requires Enabled(v.fsm, event) && id in v.components
    ensures id in v'.components && ModuleTrue(v'.components[id].updateModule)
    ensures v'.components[id].updateModule.Dual? == v.components[id].updateModule.Dual?
    ensures event.Apply? ==> SameApplied(v.components[id].updateModule, v'.components[id].updateModule)
  {
    hide EventStep, Careful, LeftBy, Linked, ModulesOK, HoldsRequested, Enabled, SameApplied;
    EventLeaves(out, semver, event, saveOk, v, v', id);
    assert ModuleTrue(v.components[id].updateModule);
    LeftTrue(out, semver, v, event, id, v'.components[id], Lookup(v'.versions, id));
  }

  /** Settling in updated, the slot Apply will copy from holds the requested version. */
  lemma UpdateHolds(out: Outside, semver: Precedence, saveOk: bool, v: View<AnyModule>, v': View<AnyModule>, id: string)
    requires ImageInvariant(v, true) && v.fsm == StatePrepared &&
             EventStep(EnvOf(out), semver, Update, saveOk, v, v')
    requires v'.fsm == StateUpdated && id in v'.state.statuses && id in v'.components &&
             v'.components[id].updateModule.Dual?
    requires ModuleTrue(v'.components[id].updateModule)
    ensures AppliedImage(v'.components[id].updateModule.d).version == Some(v'.state.statuses[id].version)
  {
    hide EventStep, Careful, Linked, HoldsRequested, DualPartRuns.Known;
    UpdatedIsVerified(EnvOf(out), semver, saveOk, v, v');
    assert KnownModule(v.components[id].updateModule);
    UpdatedRunsTheUpdate(out, semver, saveOk, v, v', id);
  }

  lemma UpdateKeepsHolding(out: Outside, semver: Precedence, saveOk: bool, v: View<AnyModule>, v': View<AnyModule>)
    requires ImageInvariant(v, true) && v.fsm == StatePrepared &&
             EventStep(EnvOf(out), semver, Update, saveOk, v, v')
    requires forall id :: id in v'.components ==> ModuleTrue(v'.components[id].updateModule)
    ensures HoldsRequested(v', v'.state) && HoldsRequested(v', v'.saved)
  {
    assert v.saved == v.state && v.state.updateState == StatePrepared;
    hide OperationEvent, ImageInvariant;
    var _, _ := InsideEvent(EnvOf(out), UpdateCalls(EnvOf(out)), StateUpdated, true, saveOk, v, v');
    if v'.fsm == StateUpdated {
      forall id | id in v'.state.statuses && id in v'.components && v'.components[id].updateModule.Dual?
        ensures AppliedImage(v'.components[id].updateModule.d).version == Some(v'.state.statuses[id].version)
      {
        UpdateHolds(out, semver, saveOk, v, v', id);
      }
    }
  }

  lemma ApplyKeepsHolding(out: Outside, semver: Precedence, saveOk: bool, v: View<AnyModule>, v': View<AnyModule>)
    requires ImageInvariant(v, false) && v.fsm == StateUpdated && EventStep(EnvOf(out), semver, Apply, saveOk, v, v')
    requires v'.components.Keys == v.components.Keys
    requires forall id :: id in v.components ==>
               SameApplied(v.components[id].updateModule, v'.components[id].updateModule)
    ensures HoldsRequested(v', v'.state) && HoldsRequested(v', v'.saved)
  {
    hide OperationEvent, Linked, ModulesOK, ModuleTrue, AppliedImage;
    var _, _ := InsideEvent(EnvOf(out), ApplyCalls(EnvOf(out)), StateIdle, false, saveOk, v, v');
  }

  lemma OtherKeepsHolding(out: Outside, semver: Precedence, event: Event, saveOk: bool, v: View<AnyModule>,
                          v': View<AnyModule>)
    requires ImageInvariant(v, true) && EventStep(EnvOf(out), semver, event, saveOk, v, v') && Enabled(v.fsm, event)
    requires event.Prepare? || (event.Revert? && v'.saved.updateState != StateUpdated)
    ensures HoldsRequested(v', v'.state) && HoldsRequested(v', v'.saved)
  {
    hide OperationEvent, PrepareEvent, Linked, ModulesOK, ModuleTrue, AppliedImage;
    if event.Prepare? {
      PrepareStoresNothing(EnvOf(out), semver, event.infos, saveOk, v, v');
    } else {
      var _, _ := InsideEvent(EnvOf(out), RevertCalls(EnvOf(out)), StateIdle, false, saveOk, v, v');
    }
  }

  /** An Apply that leaves the record in updated could not store it. */
  lemma ApplyKeepsOpen(out: Outside, semver: Precedence, saveOk: bool, v: View<AnyModule>, v': View<AnyModule>)
    requires ImageInvariant(v, true) && v.fsm == StateUpdated && EventStep(EnvOf(out), semver, Apply, saveOk, v, v')
    requires v'.saved.updateState != StateUpdated
    ensures HoldsRequested(v', v'.state) && HoldsRequested(v', v'.saved)
  {
    hide OperationEvent, Linked, ModulesOK, ModuleTrue, AppliedImage;
    var _, _ := InsideEvent(EnvOf(out), ApplyCalls(EnvOf(out)), StateIdle, false, saveOk, v, v');
  }

  lemma EventKeepsImages(out: Outside, semver: Precedence, event: Event, saveOk: bool, v: View<AnyModule>,
                         v': View<AnyModule>, open: bool)
    requires ImageInvariant(v, open) && Careful(out, event) && EventStep(EnvOf(out), semver, event, saveOk, v, v')
    requires open ==> v.saved.updateState == StateUpdated
    ensures ImageInvariant(v', OpenAfter(Runs(out, event, saveOk), v, v', open))
  {
    StepKeepsInvariant(semver, Happens(EnvOf(out), event, saveOk), v, v');
    EventKeepsSystem(out, semver, event, saveOk, v, v');
    if Enabled(v.fsm, event) {
      assert ImageInvariant(v, true);
      hide EventStep, Careful, ImageInvariant, SystemInvariant, ModuleTrue, HoldsRequested, Invariant, SameApplied;
      forall id | id in v.components
        ensures ModuleTrue(v'.components[id].updateModule)
        ensures event.Apply? ==> SameApplied(v.components[id].updateModule, v'.components[id].updateModule)
      {
        EventKeepsTrue(out, semver, event, saveOk, v, v', id);
      }
      if !OpenAfter(Runs(out, event, saveOk), v, v', open) {
        match event
        case Prepare(_) => OtherKeepsHolding(out, semver, event, saveOk, v, v');
        case Update => UpdateKeepsHolding(out, semver, saveOk, v, v');
        case Apply =>
          if open {
            ApplyKeepsOpen(out, semver, saveOk, v, v');
          } else {
            ApplyKeepsHolding(out, semver, saveOk, v, v');
          }
        case Revert => OtherKeepsHolding(out, semver, event, saveOk, v, v');
      }
      ImagesTogether(v', OpenAfter(Runs(out, event, saveOk), v, v', open));
    }
  }

  lemma ImagesTogether(v: View<AnyModule>, open: bool)
    requires SystemInvariant(v) && (!open ==> HoldsRequested(v, v.state) && HoldsRequested(v, v.saved))
    requires forall id :: id in v.components ==> ModuleTrue(v.components[id].updateModule)
    ensures ImageInvariant(v, open)
  {
  }

  // ---------------------------------------------------------------- the images of a record, over stops

  /** The stop comes during no event but Apply, or one the handler ignores. */
  predicate Kept(l: SystemLabel, v: View<AnyModule>)
    requires l.Stops?
  {
    l.during.None? || l.during == Some(Apply) || !Enabled(v.fsm, l.during.value)
  }

  lemma StoppedTrue(l: SystemLabel, semver: Precedence, v: View<AnyModule>, v': View<AnyModule>, id: string)
    requires l.Stops? && StopStep(l, semver, v, v') && ImageInvariant(v, true) && CarefulLabel(l) && id in v.components
    ensures ModuleTrue(l.stopped[id]) && l.stopped[id].Dual? == v.components[id].updateModule.Dual?
    ensures Kept(l, v) ==> SameApplied(v.components[id].updateModule, l.stopped[id])
  {
    assert ModuleTrue(v.components[id].updateModule);
    hide Careful, RestartStep, Created, SystemInvariant, HoldsRequested, Touched, AppliedImage, ModuleTrue, Enabled;
    if l.during.Some? {
      LeftTrue(l.out, semver, v, l.during.value, id, v.components[id].(updateModule := l.stopped[id]),
               Lookup(v'.versions, id));
    }
  }

  lemma StartedTrue(l: SystemLabel, m: AnyModule)
    requires l.Stops? && Created(l, m).Some? && ModuleSettled(m)
    requires m.Dual? ==> DualPartRuns.Succeeds(m.d, DualPartRuns.Restart(l.boots, RestartIo(l, m.d)))
    ensures var m' := InitOf(l.next, Created(l, m).value).next;
      && ModuleTrue(m') && ModuleGood(m') && SameApplied(m, m')
      && (m.Dual? ==> CommittedImage(m'.d) == CommittedImage(m.d))
  {
    hide Created, InitOf, RestartIo, DualPartRuns.Succeeds, DualPartRuns.ReadsVersion, AppliedImage, CommittedImage,
         SettledDual;
    if m.Dual? {
      RestartKeepsImages(l, m.d);
    } else {
      OverRestarts(l, m);
    }
  }

  lemma StopKeepsTrue(l: SystemLabel, semver: Precedence, v: View<AnyModule>, v': View<AnyModule>, id: string)
    requires l.Stops? && StopStep(l, semver, v, v') && ImageInvariant(v, true) && CarefulLabel(l) && ReadsRecords(l)
    requires id in v.components
    ensures id in v'.components && ModuleTrue(v'.components[id].updateModule)
    ensures v'.components[id].updateModule.Dual? == v.components[id].updateModule.Dual?
    ensures Kept(l, v) ==> SameApplied(v.components[id].updateModule, v'.components[id].updateModule)
  {
    hide CarefulLabel, ImageInvariant, LeftBy, Started, Created, InitOf, RestartIo, DualPartRuns.Succeeds,
         AppliedImage, CommittedImage, SettledDual, ReadsUpdate, DualPartRuns.ReadsVersion, Kept;
    StoppedTrue(l, semver, v, v', id);
    StartedTrue(l, l.stopped[id]);
  }

  /** With updated stored, the only events that a stop without a Revert can come during are Apply and those the handler
      ignores. */
  lemma StopsWithin(l: SystemLabel, v: View<AnyModule>)
    requires l.Stops? && !RevertsAt(l, v) && Invariant(v) && v.saved.updateState == StateUpdated
    ensures Kept(l, v)
  {
  }

  lemma StopKeepsImages(l: SystemLabel, semver: Precedence, v: View<AnyModule>, v': View<AnyModule>, open: bool)
    requires l.Stops? && StopStep(l, semver, v, v') && ImageInvariant(v, open) && CarefulLabel(l) && ReadsRecords(l)
    ensures ImageInvariant(v', OpenAfter(l, v, v', open))
  {
    StopKeepsSystem(l, semver, v, v');
    StopKeepsInvariant(l, semver, v, v');
    if v.saved.updateState == StateUpdated && !RevertsAt(l, v) { StopsWithin(l, v); }
    hide StopStep, CarefulLabel, ReadsRecords, SystemInvariant, ModuleTrue, AppliedImage, RevertsAt, Kept;
    forall id | id in v.components
      ensures ModuleTrue(v'.components[id].updateModule)
      ensures v'.components[id].updateModule.Dual? == v.components[id].updateModule.Dual?
      ensures v.saved.updateState == StateUpdated && !RevertsAt(l, v) ==>
                SameApplied(v.components[id].updateModule, v'.components[id].updateModule)
    {
      StopKeepsTrue(l, semver, v, v', id);
    }
    ImagesTogether(v', OpenAfter(l, v, v', open));
  }

  // ---------------------------------------------------------------- the images of a record, over runs

  /** Before step i a Revert has been acted on, and the stored record has said updated ever since. */
  predicate RevertOpen(labels: seq<SystemLabel>, views: seq<View<AnyModule>>, i: nat)
    requires i <= |labels| < |views|
  {
    i > 0 && OpenAfter(labels[i - 1], views[i - 1], views[i], RevertOpen(labels, views, i - 1))
  }

  /** The same without recursion. */
  lemma {:induction false} OpenMeaning(labels: seq<SystemLabel>, views: seq<View<AnyModule>>, i: nat)
    requires i <= |labels| < |views|
    ensures RevertOpen(labels, views, i) <==>
              exists k: nat :: k < i && RevertsAt(labels[k], views[k]) && StaysUpdated(views, k, i)
  {
    hide RevertsAt;
    if i > 0 {
      OpenMeaning(labels, views, i - 1);
      if RevertOpen(labels, views, i) {
        if RevertOpen(labels, views, i - 1) {
          var k: nat :| k < i - 1 && RevertsAt(labels[k], views[k]) && StaysUpdated(views, k, i - 1);
          assert StaysUpdated(views, k, i);
        } else {
          assert RevertsAt(labels[i - 1], views[i - 1]) && StaysUpdated(views, i - 1, i);
        }
      }
      if k: nat :| k < i && RevertsAt(labels[k], views[k]) && StaysUpdated(views, k, i) {
        assert k < i - 1 ==> StaysUpdated(views, k, i - 1);
      }
    }
  }

  predicate StaysUpdated(views: seq<View<AnyModule>>, k: nat, i: nat)
    requires k <= i < |views|
  {
    forall m {:trigger views[m]} :: k < m <= i ==> views[m].saved.updateState == StateUpdated
  }

  lemma ImageStepAt(semver: Precedence, labels: seq<SystemLabel>, views: seq<View<AnyModule>>, i: nat)
    requires SystemRun(semver, labels, views) && AllCareful(labels)
    requires i < |labels| && ImageInvariant(views[i], RevertOpen(labels, views, i))
    ensures ImageInvariant(views[i + 1], RevertOpen(labels, views, i + 1))
  {
    hide EventStep, StopStep, ImageInvariant, Careful, ReadsRecords, RevertsAt;
    var l := labels[i];
    match l
    case Runs(out, event, saveOk) =>
      EventKeepsImages(out, semver, event, saveOk, views[i], views[i + 1], RevertOpen(labels, views, i));
    case Stops(_, _, _, _, _, _, _) => StopKeepsImages(l, semver, views[i], views[i + 1], RevertOpen(labels, views, i));
  }

  /** Over every careful run, unless a revert is open, a record in updated has the versions it names in the slots that
      Apply copies from. */
  lemma {:induction false} ImageInvariantAlways(semver: Precedence, labels: seq<SystemLabel>,
                                                views: seq<View<AnyModule>>, i: nat)
    requires SystemRun(semver, labels, views) && AllCareful(labels)
    requires ImageInvariant(views[0], false) && i < |views|
    ensures ImageInvariant(views[i], RevertOpen(labels, views, i))
  {
    hide SystemStep, ImageInvariant, CarefulLabel, ReadsRecords, OpenAfter;
    if i > 0 {
      ImageInvariantAlways(semver, labels, views, i - 1);
      ImageStepAt(semver, labels, views, i - 1);
    }
  }

  /** The component holds in both slots an image of the version requested for it, and that version is stored. */
  ghost predicate HoldsApplied(v: View<AnyModule>, id: string, version: string) {
    && id in v.versions && v.versions[id] == version
    && id in v.components && v.components[id].updateModule.Dual?
    && forall slot: DualPart.Slot :: v.components[id].updateModule.d.contents[slot].version == Some(version)
  }

  /** What decides before the event whether Apply leaves that: the image it copies from, or both images if the module
      takes itself to have applied the update. */
  lemma AppliedHoldsExactly(out: Outside, semver: Precedence, saveOk: bool, v: View<AnyModule>, v': View<AnyModule>,
                            id: string)
    requires Invariant(v) && v.fsm == StateUpdated && EventStep(EnvOf(out), semver, Apply, saveOk, v, v')
    requires id in v.state.statuses && id in v.components && v.components[id].updateModule.Dual?
    requires !KeptAsError(v', id)
    ensures HoldsApplied(v', id, v.state.statuses[id].version) <==>
              WouldHold(v.components[id].updateModule.d, v.state.statuses[id].version)
  {
    hide EventStep, Invariant;
    AppliedHoldsUpdate(out, semver, saveOk, v, v', id);
    EqualSlots(v'.components[id].updateModule.d);
  }

  predicate WouldHold(d: DualPart.Dual, version: string) {
    && AppliedImage(d).version == Some(version)
    && (d.state.state != DualPart.Updated ==> CommittedImage(d).version == Some(version))
  }

  lemma InvariantOf(v: View<AnyModule>)
    requires ImageInvariant(v, false)
    ensures Invariant(v)
  {
  }

  /** With no revert open the record decides it. */
  lemma RecordHolds(v: View<AnyModule>, id: string)
    requires ImageInvariant(v, false) && v.fsm == StateUpdated
    requires id in v.state.statuses && id in v.components && v.components[id].updateModule.Dual?
    ensures WouldHold(v.components[id].updateModule.d, v.state.statuses[id].version)
  {
    assert ModuleTrue(v.components[id].updateModule) && v.state.updateState == StateUpdated;
    EqualSlots(v.components[id].updateModule.d);
  }

  /** Over every careful run, when an Apply event has been processed with no revert open, a dual-partition component of
      its transaction that is not kept as an error holds in both slots an image of the requested version, and that
      version is stored. */
  lemma AppliedHoldsRequested(semver: Precedence, labels: seq<SystemLabel>, views: seq<View<AnyModule>>, i: nat,
                              id: string)
    requires SystemRun(semver, labels, views) && AllCareful(labels) && ImageInvariant(views[0], false)
    requires i < |labels| && labels[i].Runs? && labels[i].event == Apply && views[i].fsm == StateUpdated
    requires !RevertOpen(labels, views, i)
    requires id in views[i].state.statuses && id in views[i].components && views[i].components[id].updateModule.Dual?
    ensures KeptAsError(views[i + 1], id) || HoldsApplied(views[i + 1], id, views[i].state.statuses[id].version)
  {
    hide EventStep, CarefulLabel, ReadsRecords, RevertOpen, ImageInvariant, KeptAsError, HoldsApplied, WouldHold,
         Invariant;
    assert Invariant(views[0]) by { InvariantOf(views[0]); }
    ImageInvariantAlways(semver, labels, views, i);
    assert SystemStep(semver, labels[i], views[i], views[i + 1]);
    RecordHolds(views[i], id);
    HandlerInvariant(semver, labels, views, i);
    if !KeptAsError(views[i + 1], id) {
      AppliedHoldsExactly(labels[i].out, semver, labels[i].saveOk, views[i], views[i + 1], id);
    }
  }

  // ---------------------------------------------------------------- stored versions and images

  predicate ModuleGood(m: AnyModule) {
    m.Dual? ==> SettledDual(m.d) && DualPartRuns.ReadsVersion(m.d)
  }

  /** The version stored for a component is not above its committed image's. */
  ghost predicate StoredBelow(semver: Precedence, stored: Option<string>, m: AnyModule) {
    m.Dual? && stored.Some? ==>
      CommittedImage(m.d).version.Some? && NotBelow(semver, stored.value, CommittedImage(m.d).version.value)
  }

  ghost predicate ComponentOK(semver: Precedence, v: View<AnyModule>, id: string)
    requires id in v.components
  {
    && ModuleGood(v.components[id].updateModule)
    && StoredBelow(semver, Lookup(v.versions, id), v.components[id].updateModule)
  }

  ghost predicate VersionInvariant(semver: Precedence, v: View<AnyModule>, open: bool) {
    && ImageInvariant(v, open) && PendingRaises(semver, v)
    && forall id :: id in v.components ==> ComponentOK(semver, v, id)
  }

  /** What has to hold of a step for stored versions to follow the images: an Apply comes with no revert open, and a
      complete Apply or Revert does not overwrite the running slot of a module, which would go on reporting the version
      it had. */
  predicate Trusted(l: SystemLabel, v: View<AnyModule>, open: bool) {
    && (AppliesAt(l, v) ==> !open)
    && (l.Runs? && Enabled(v.fsm, l.event) ==>
          forall id :: id in v.components && v.components[id].updateModule.Dual? ==>
            KeepsRunning(l.event, v.components[id].updateModule.d))
  }

  /** The contract of versions, as far as it is about modules other than dual-partition ones. */
  ghost predicate OthersReport(semver: Precedence, l: SystemLabel, v: View<AnyModule>) {
    l.Runs? && l.event.Prepare? && v.fsm == StateIdle ==>
      forall id :: id in v.components && v.components[id].updateModule.Over? ==>
        ReportsStoredOf(EnvOf(l.out), semver, v, id)
  }

  /** What is stored for a component after an event, complete or not. */
  lemma LeftBelow(out: Outside, semver: Precedence, v: View<AnyModule>, event: Event, id: string,
                  component: Component<AnyModule>, stored: Option<string>, open: bool)
    requires VersionInvariant(semver, v, open) && Careful(out, event) && id in v.components
    requires event.Apply? && v.fsm == StateUpdated ==> !open
    requires LeftBy(out, semver, v, event, id, component, stored)
    ensures StoredBelow(semver, stored, component.updateModule)
  {
    hide LeftBy, Careful, NotBelow, Linked, ModulesOK, Invariant, ReadsUpdate, PendingRaises;
    assert ComponentOK(semver, v, id);
    if v.components[id].updateModule.Dual? {
      LeftKeepsImages(out, semver, v, event, id, component, stored);
      LeftStores(out, semver, v, event, id, component, stored);
      if event.Apply? && !(component == v.components[id] && stored == Lookup(v.versions, id)) {
        OnlyInUpdated(out, semver, v, event, id, component, stored);
        AppliedOK(out, semver, v, event, id, component, stored);
        RequestedAbove(semver, v, id);
      }
    } else {
      StaysOver(out, semver, v, event, id, component, stored);
    }
  }

  lemma OnlyInUpdated(out: Outside, semver: Precedence, v: View<AnyModule>, event: Event, id: string,
                      component: Component<AnyModule>, stored: Option<string>)
    requires id in v.components && LeftBy(out, semver, v, event, id, component, stored) && event.Apply?
    requires !(component == v.components[id] && stored == Lookup(v.versions, id))
    ensures v.fsm == StateUpdated
  {
    hide Touched;
  }

  /** What is stored is not above what is pending. */
  lemma RequestedAbove(semver: Precedence, v: View<AnyModule>, id: string)
    requires PendingRaises(semver, v) && v.fsm == StateUpdated && Invariant(v) && id in v.state.statuses
    ensures NotBelow(semver, v.state.statuses[id].version, v.state.statuses[id].version)
    ensures id in v.versions ==> NotBelow(semver, v.versions[id], v.state.statuses[id].version)
  {
  }

  /** In idle a dual-partition module that reports a valid version reports the committed image's. */
  lemma DualReports(env: Env<AnyModule>, semver: Precedence, v: View<AnyModule>, id: string, open: bool)
    requires VersionInvariant(semver, v, open) && v.fsm == StateIdle && semver("").None?
    requires id in v.components && v.components[id].updateModule.Dual? &&
             env.version(v.components[id].updateModule) == VersionOf(v.components[id].updateModule)
    ensures ReportsStoredOf(env, semver, v, id)
  {
    assert ComponentOK(semver, v, id);
    NotUpdatedWhenIdle(v, id);
    EqualSlots(v.components[id].updateModule.d);
  }

  lemma ContractMet(out: Outside, semver: Precedence, event: Event, saveOk: bool, v: View<AnyModule>, open: bool)
    requires VersionInvariant(semver, v, open) && semver("").None? && OthersReport(semver, Runs(out, event, saveOk), v)
    ensures ReportsStored(semver, Happens(EnvOf(out), event, saveOk), v)
  {
    if event.Prepare? && v.fsm == StateIdle {
      AcceptedAreInstalled(v.installed, event.infos);
      hide VersionInvariant, ReportsStoredOf, Accepted;
      forall id | id in Accepted(v.installed, event.infos).infos ensures ReportsStoredOf(EnvOf(out), semver, v, id) {
        if id in v.components && v.components[id].updateModule.Dual? {
          DualReports(EnvOf(out), semver, v, id, open);
        } else if id !in v.components {
          NotConfigured(EnvOf(out), semver, v, id);
        }
      }
    }
  }

  lemma NotConfigured(env: Env<AnyModule>, semver: Precedence, v: View<AnyModule>, id: string)
    requires id !in v.components
    ensures ReportsStoredOf(env, semver, v, id)
  {
  }

  lemma EventKeepsComponent(out: Outside, semver: Precedence, event: Event, saveOk: bool, v: View<AnyModule>,
                            v': View<AnyModule>, id: string, open: bool)
    requires VersionInvariant(semver, v, open) && Careful(out, event) && Enabled(v.fsm, event) && id in v.components
    requires EventStep(EnvOf(out), semver, event, saveOk, v, v') && (event.Apply? ==> !open)
    requires v.components[id].updateModule.Dual? ==> KeepsRunning(event, v.components[id].updateModule.d)
    ensures id in v'.components && ComponentOK(semver, v', id)
  {
    hide EventStep, Careful, LeftBy, StoredBelow, Linked, ModulesOK, PendingRaises, HoldsRequested, Enabled,
         ReadsUpdate;
    EventLeaves(out, semver, event, saveOk, v, v', id);
    LeftBelow(out, semver, v, event, id, v'.components[id], Lookup(v'.versions, id), open);
    assert ComponentOK(semver, v, id);
    if v.components[id].updateModule.Dual? {
      LeftKeepsImages(out, semver, v, event, id, v'.components[id], Lookup(v'.versions, id));
    } else {
      StaysOver(out, semver, v, event, id, v'.components[id], Lookup(v'.versions, id));
    }
  }

  lemma EventKeepsVersions(out: Outside, semver: Precedence, event: Event, saveOk: bool, v: View<AnyModule>,
                           v': View<AnyModule>, open: bool)
    requires VersionInvariant(semver, v, open) && (open ==> v.saved.updateState == StateUpdated)
    requires Careful(out, event) && EventStep(EnvOf(out), semver, event, saveOk, v, v')
    requires Trusted(Runs(out, event, saveOk), v, open) && OthersReport(semver, Runs(out, event, saveOk), v)
    requires semver("").None?
    ensures VersionInvariant(semver, v', OpenAfter(Runs(out, event, saveOk), v, v', open))
    ensures VersionsRaised(semver, v.versions, v'.versions)
  {
    ContractMet(out, semver, event, saveOk, v, open);
    StepKeepsInvariant(semver, Happens(EnvOf(out), event, saveOk), v, v');
    StepRaises(semver, Happens(EnvOf(out), event, saveOk), v, v');
    EventKeepsImages(out, semver, event, saveOk, v, v', open);
    if Enabled(v.fsm, event) {
      hide EventStep, Careful, ImageInvariant, ComponentOK, OthersReport, KeepsRunning, Invariant, PendingRaises,
           VersionsRaised;
      forall id | id in v.components ensures ComponentOK(semver, v', id) {
        EventKeepsComponent(out, semver, event, saveOk, v, v', id, open);
      }
    }
  }

  // ---------------------------------------------------------------- stored versions, over stops

  lemma StoppedBelow(l: SystemLabel, semver: Precedence, v: View<AnyModule>, v': View<AnyModule>, id: string,
                     open: bool)
    requires l.Stops? && StopStep(l, semver, v, v') && VersionInvariant(semver, v, open) && CarefulLabel(l)
    requires id in v.components && (AppliesAt(l, v) ==> !open)
    ensures StoredBelow(semver, Lookup(v'.versions, id), l.stopped[id])
  {
    assert ComponentOK(semver, v, id);
    hide Careful, RestartStep, Created, ImageInvariant, PendingRaises, Touched, StoredBelow;
    if l.during.Some? {
      LeftBelow(l.out, semver, v, l.during.value, id, v.components[id].(updateModule := l.stopped[id]),
                Lookup(v'.versions, id), open);
    }
  }

  lemma StopKeepsComponent(l: SystemLabel, semver: Precedence, v: View<AnyModule>, v': View<AnyModule>, id: string,
                           open: bool)
    requires l.Stops? && StopStep(l, semver, v, v') && CarefulLabel(l) && ReadsRecords(l)
    requires VersionInvariant(semver, v, open) && id in v.components && (AppliesAt(l, v) ==> !open)
    ensures id in v'.components && ComponentOK(semver, v', id)
  {
    assert ImageInvariant(v, true);
    hide CarefulLabel, ImageInvariant, PendingRaises, LeftBy, Started, Created, InitOf, RestartIo, AppliesAt,
         DualPartRuns.Succeeds, AppliedImage, CommittedImage, SettledDual, ReadsUpdate, DualPartRuns.ReadsVersion,
         NotBelow;
    StoppedBelow(l, semver, v, v', id, open);
    StoppedTrue(l, semver, v, v', id);
    StartedTrue(l, l.stopped[id]);
  }

  lemma StopKeepsVersions(l: SystemLabel, semver: Precedence, v: View<AnyModule>, v': View<AnyModule>, open: bool)
    requires l.Stops? && StopStep(l, semver, v, v') && CarefulLabel(l) && ReadsRecords(l)
    requires VersionInvariant(semver, v, open) && Trusted(l, v, open)
    ensures VersionInvariant(semver, v', OpenAfter(l, v, v', open)) && VersionsRaised(semver, v.versions, v'.versions)
  {
    StopRaises(l, semver, v, v', open);
    StopKeepsImages(l, semver, v, v', open);
    hide StopStep, CarefulLabel, ReadsRecords, ImageInvariant, ComponentOK, PendingRaises, VersionsRaised;
    forall id | id in v'.components ensures ComponentOK(semver, v', id) {
      SameComponents(l, semver, v, v');
      StopKeepsComponent(l, semver, v, v', id, open);
    }
  }

  lemma SameComponents(l: SystemLabel, semver: Precedence, v: View<AnyModule>, v': View<AnyModule>)
    requires l.Stops? && StopStep(l, semver, v, v')
    ensures v'.components.Keys == v.components.Keys
  {
  }

  lemma StopRaises(l: SystemLabel, semver: Precedence, v: View<AnyModule>, v': View<AnyModule>, open: bool)
    requires l.Stops? && StopStep(l, semver, v, v') && VersionInvariant(semver, v, open)
    ensures VersionsRaised(semver, v.versions, v'.versions) && PendingRaises(semver, v')
  {
    hide LeftBy, Created, InitOf, Linked, ModulesOK, ComponentOK, HoldsRequested;
    RestartRaises(EnvOf(l.next), semver, v, v');
  }

  // ---------------------------------------------------------------- stored versions, over runs

  ghost predicate AllTrusted(semver: Precedence, labels: seq<SystemLabel>, views: seq<View<AnyModule>>)
    requires |views| == |labels| + 1
  {
    forall i {:trigger labels[i]} :: 0 <= i < |labels| ==>
      Trusted(labels[i], views[i], RevertOpen(labels, views, i)) && OthersReport(semver, labels[i], views[i])
  }

  lemma VersionStepAt(semver: Precedence, labels: seq<SystemLabel>, views: seq<View<AnyModule>>, i: nat)
    requires SystemRun(semver, labels, views) && AllCareful(labels) && AllTrusted(semver, labels, views)
    requires semver("").None?
    requires i < |labels| && VersionInvariant(semver, views[i], RevertOpen(labels, views, i))
    ensures VersionInvariant(semver, views[i + 1], RevertOpen(labels, views, i + 1))
    ensures VersionsRaised(semver, views[i].versions, views[i + 1].versions)
  {
    hide EventStep, StopStep, VersionInvariant, Careful, ReadsRecords, Trusted, OthersReport, VersionsRaised, RevertsAt;
    var l := labels[i];
    match l
    case Runs(out, event, saveOk) =>
      EventKeepsVersions(out, semver, event, saveOk, views[i], views[i + 1], RevertOpen(labels, views, i));
    case Stops(_, _, _, _, _, _, _) =>
      StopKeepsVersions(l, semver, views[i], views[i + 1], RevertOpen(labels, views, i));
  }

  lemma {:induction false} VersionInvariantAlways(semver: Precedence, labels: seq<SystemLabel>,
                                                  views: seq<View<AnyModule>>, i: nat)
    requires SystemRun(semver, labels, views) && AllCareful(labels) && AllTrusted(semver, labels, views)
    requires semver("").None?
    requires VersionInvariant(semver, views[0], false) && i < |views|
    ensures VersionInvariant(semver, views[i], RevertOpen(labels, views, i))
  {
    hide SystemStep, VersionInvariant, CarefulLabel, ReadsRecords, Trusted, OthersReport, VersionsRaised, OpenAfter;
    if i > 0 {
      VersionInvariantAlways(semver, labels, views, i - 1);
      VersionStepAt(semver, labels, views, i - 1);
    }
  }

  /** Over every careful and trusted run of the system, the version stored for a component stays what it is or gives way
      to one of strictly higher precedence. Of dual-partition modules nothing is assumed about what they report. */
  lemma {:induction false} StoredVersionsRise(semver: Precedence, labels: seq<SystemLabel>, views: seq<View<AnyModule>>,
                                              i: nat, j: nat)
    requires SystemRun(semver, labels, views) && AllCareful(labels) && AllTrusted(semver, labels, views)
    requires semver("").None?
    requires VersionInvariant(semver, views[0], false) && i <= j < |views|
    ensures VersionsRaised(semver, views[i].versions, views[j].versions)
    decreases j
  {
    hide SystemStep, VersionInvariant, CarefulLabel, ReadsRecords, Trusted, OthersReport, RevertOpen;
    if i < j {
      StoredVersionsRise(semver, labels, views, i, j - 1);
      VersionInvariantAlways(semver, labels, views, j - 1);
      VersionStepAt(semver, labels, views, j - 1);
      VersionsRaisedTransitive(semver, views[i].versions, views[j - 1].versions, views[j].versions);
    }
  }

  /** A first start with equal slots meets the invariants. */
  lemma FirstVersions(l: SystemLabel, semver: Precedence, v: View<AnyModule>)
    requires l.Stops? && Started(EnvOf(l.next), NEW_STATE, v) && l.stopped.Keys == v.components.Keys
    requires forall id :: id in v.components ==>
               && Created(l, l.stopped[id]).Some?
               && (l.stopped[id].Dual? ==> l.stopped[id].d.stored.None? && DualPartRuns.SlotsEqual(l.stopped[id].d))
               && v.components[id].updateModule == InitOf(l.next, Created(l, l.stopped[id]).value).next
    ensures ImageInvariant(v, false)
    ensures v.versions == map[] ==> VersionInvariant(semver, v, false)
  {
    FirstSystemStart(l, v);
    FirstStart(EnvOf(l.next), semver, v);
    hide Created, InitOf, SystemInvariant, PendingRaises, ModuleGood, ModuleTrue;
    forall id | id in v.components
      ensures ModuleTrue(v.components[id].updateModule) && ModuleGood(v.components[id].updateModule)
    {
      NewModuleOK(l, l.stopped[id]);
    }
    ImagesTogether(v, false);
  }

  lemma NewModuleOK(l: SystemLabel, m: AnyModule)
    requires l.Stops? && Created(l, m).Some? && (m.Dual? ==> m.d.stored.None? && DualPartRuns.SlotsEqual(m.d))
    ensures var m' := InitOf(l.next, Created(l, m).value).next;
      ModuleGood(m') && ModuleTrue(m')
  {
    if m.Dual? {
      InitIsRestart(l, m.d);
      DualPartRuns.AfterRestart(m.d, l.boots, RestartIo(l, m.d));
      hide DualPartRuns.Restarted, DualPartRuns.Starts, DualPartRuns.ReadsRecord, DualPartRuns.ReadsVersion, InitOf,
           Created, RestartIo;
    } else {
      OverRestarts(l, m);
    }
  }
}
