/** The handler, its modules and the firmware as one system: events with all their calls, stops of the process between
    events or within one, power cycles, and new processes that create and initialise the modules. */
module SystemRuns {
  import opened Prelude
  import opened EfiController
  import opened Firmware
  import opened ComponentOperations
  import opened OperationLoop
  import opened HandlerSpec
  import opened HandlerRuns
  import opened HandlerTransactions
  import opened UpdateHandler
  import opened UpdateModules
  import DualPart
  import DualPartRuns
  import Overlay

  /** A step of the system. A stop may come during an event; it leaves the modules as the calls made so far left them,
      the machine goes through power cycles, or none, and a new process comes up. */
  datatype SystemLabel =
    | Runs(out: Outside, event: Event, saveOk: bool)
    | Stops(out: Outside, during: Option<Event>, stopped: map<string, AnyModule>, boots: seq<Up>, createOk: bool,
            early: Overlay.Overlay -> Overlay.EarlyBoot, next: Outside)

  // ---------------------------------------------------------------- steps

  function EventCalls(out: Outside, semver: Precedence, v: View<AnyModule>, event: Event): Calls<AnyModule> {
    match event
    case Prepare(infos) => PrepareCalls(EnvOf(out), semver, Accepted(v.installed, infos).infos)
    case Update => UpdateCalls(EnvOf(out))
    case Apply => ApplyCalls(EnvOf(out))
    case Revert => RevertCalls(EnvOf(out))
  }

  /** The handler when the event's operation begins. */
  function Begun(v: View<AnyModule>, event: Event): View<AnyModule> {
    match event
    case Prepare(infos) => Requested(Entering(v, StatePrepared), Accepted(v.installed, infos))
    case _ => Entering(v, Target(event))
  }

  predicate Turned(v: View<AnyModule>, event: Event) {
    event.Prepare? && (event.infos == [] || Accepted(v.installed, event.infos).err.Some?)
  }

  /** A component and its stored version as the event, complete or not, may have left them. */
  ghost predicate LeftBy(out: Outside, semver: Precedence, v: View<AnyModule>, event: Event, id: string,
                         component: Component<AnyModule>, stored: Option<string>)
    requires id in v.components
  {
    || (component == v.components[id] && stored == Lookup(v.versions, id))
    || (Enabled(v.fsm, event) && !Turned(v, event)
        && Touched(EventCalls(out, semver, v, event), Begun(v, event), id, component, stored))
  }

  /** The module a new process creates, from what is left of the one before it. */
  function Created(l: SystemLabel, m: AnyModule): Option<AnyModule>
    requires l.Stops?
  {
    match m
    case Dual(d) =>
      (match DualPart.Created(DualPartRuns.Booted(d, l.boots), l.createOk)
       case None => None
       case Some(c) => Some(Dual(c)))
    case Over(o) => Some(Over(Overlay.Booted(o, l.early(o))))
  }

  ghost predicate StopStep(l: SystemLabel, semver: Precedence, v: View<AnyModule>, v': View<AnyModule>)
    requires l.Stops?
  {
    && l.stopped.Keys == v.components.Keys
    && (forall id :: id in v.components ==>
          match l.during
          case None => l.stopped[id] == v.components[id].updateModule &&
              Lookup(v'.versions, id) == Lookup(v.versions, id)
          case Some(event) => LeftBy(l.out, semver, v, event, id, v.components[id].(updateModule := l.stopped[id]),
              Lookup(v'.versions, id)))
    && RestartStep(EnvOf(l.next), v, v')
    && (forall id :: id in v.components ==>
          && Created(l, l.stopped[id]).Some?
          && v'.components[id].updateModule == InitOf(l.next, Created(l, l.stopped[id]).value).next)
  }

  ghost predicate SystemStep(semver: Precedence, l: SystemLabel, v: View<AnyModule>, v': View<AnyModule>) {
    match l
    case Runs(out, event, saveOk) => EventStep(EnvOf(out), semver, event, saveOk, v, v')
    case Stops(_, _, _, _, _, _, _) => StopStep(l, semver, v, v')
  }

  ghost predicate SystemRun(semver: Precedence, labels: seq<SystemLabel>, views: seq<View<AnyModule>>) {
    && |views| == |labels| + 1
    && forall i {:trigger labels[i]} :: 0 <= i < |labels| ==> SystemStep(semver, labels[i], views[i], views[i + 1])
  }

  function HandlerLabel(l: SystemLabel): Label<AnyModule> {
    match l
    case Runs(out, event, saveOk) => Happens(EnvOf(out), event, saveOk)
    case Stops(_, _, _, _, _, _, next) => Restarts(EnvOf(next))
  }

  function HandlerLabels(labels: seq<SystemLabel>): seq<Label<AnyModule>> {
    seq(|labels|, i requires 0 <= i < |labels| => HandlerLabel(labels[i]))
  }

  /** Every run of the system is a run of the handler, so all that holds of those holds of it. */
  lemma SystemRunIsRun(semver: Precedence, labels: seq<SystemLabel>, views: seq<View<AnyModule>>)
    requires SystemRun(semver, labels, views)
    ensures IsRun(semver, HandlerLabels(labels), views)
  {
    hide EventStep, RestartStep, LeftBy;
    forall i | 0 <= i < |labels| ensures Step(semver, HandlerLabels(labels)[i], views[i], views[i + 1]) {
      assert SystemStep(semver, labels[i], views[i], views[i + 1]);
    }
  }

  /** A complete event leaves every component as its calls left it. */
  lemma EventLeaves(out: Outside, semver: Precedence, event: Event, saveOk: bool, v: View<AnyModule>,
                    v': View<AnyModule>, id: string)
    requires Invariant(v) && EventStep(EnvOf(out), semver, event, saveOk, v, v') && id in v.components
    ensures id in v'.components && LeftBy(out, semver, v, event, id, v'.components[id], Lookup(v'.versions, id))
  {
    if Enabled(v.fsm, event) {
      hide OperationEvent, PrepareEvent, Operation, Touched;
      match event
      case Prepare(infos) => PrepareLeaves(out, semver, infos, saveOk, v, v', id);
      case Update => OperationLeaves(out, semver, event, true, saveOk, v, v', id);
      case Apply => OperationLeaves(out, semver, event, false, saveOk, v, v', id);
      case Revert => OperationLeaves(out, semver, event, false, saveOk, v, v', id);
    }
  }

  lemma OperationLeaves(out: Outside, semver: Precedence, event: Event, fails: bool, saveOk: bool, v: View<AnyModule>,
                        v': View<AnyModule>, id: string)
    requires Invariant(v) && !event.Prepare? && id in v.components
    requires OperationEvent(EnvOf(out), EventCalls(out, semver, v, event), Target(event), fails, saveOk, v, v')
    ensures id in v'.components && Touched(EventCalls(out, semver, v, event), Begun(v, event), id, v'.components[id],
            Lookup(v'.versions, id))
  {
    hide OperationEvent, Operation, Touched, EventCalls;
    var v1, err := InsideEvent(EnvOf(out), EventCalls(out, semver, v, event), Target(event), fails, saveOk, v, v');
    OperationTouches(EventCalls(out, semver, v, event), fails, Entering(v, Target(event)), v1, err, id);
  }

  lemma PrepareLeaves(out: Outside, semver: Precedence, infos: seq<UpdateInfo>, saveOk: bool, v: View<AnyModule>,
                      v': View<AnyModule>, id: string)
    requires Invariant(v) && PrepareEvent(EnvOf(out), semver, infos, saveOk, v, v') && id in v.components
    ensures id in v'.components
    ensures if Turned(v, Prepare(infos)) then v'.components[id] == v.components[id] && v'.versions == v.versions
            else Touched(EventCalls(out, semver, v, Prepare(infos)), Begun(v, Prepare(infos)), id, v'.components[id],
                Lookup(v'.versions, id))
  {
    hide PrepareEvent, Operation, Touched, PrepareCalls, Accepted;
    var a, v0, v1, err := InsidePrepare(EnvOf(out), semver, infos, saveOk, v, v');
    if infos != [] && a.err.None? {
      OperationTouches(PrepareCalls(EnvOf(out), semver, a.infos), true, v0, v1, err, id);
    }
  }

  // ---------------------------------------------------------------- environments that do no harm

  /** The event's calls of dual-partition modules succeed or do no harm, and Revert, and Apply of an update, succeed. */
  ghost predicate Careful(out: Outside, event: Event) {
    forall d: DualPart.Dual :: CarefulAt(event, d, out.dual(d))
  }

  ghost predicate CarefulAt(event: Event, d: DualPart.Dual, io: DualPart.Io) {
    match event
    case Prepare(_) => forall path :: DualPartRuns.Harmless(d, DualPartRuns.Prepare(path, io))
    case Update => DualPartRuns.Harmless(d, DualPartRuns.Update(io))
    case Apply =>
      DualPartRuns.Harmless(d, DualPartRuns.Apply(io)) &&
          (d.state.state == DualPart.Updated ==> !DualPart.Apply(d, io).1.Failed?)
    case Revert => !DualPart.Revert(d, io).1.Failed?
  }

  /** So are answers where storage and firmware work, and a copy fails at most during Update, leaving what was there. */
  lemma WorkingStorageIsCareful(out: Outside, event: Event)
    requires forall d: DualPart.Dual :: WorksAt(event, d, out.dual(d))
    ensures Careful(out, event)
  {
    forall d: DualPart.Dual ensures CarefulAt(event, d, out.dual(d)) {
      assert WorksAt(event, d, out.dual(d));
    }
  }

  predicate WorksAt(event: Event, d: DualPart.Dual, io: DualPart.Io) {
    io.saveOk && io.bootOk && (io.copyOk ||
        (event.Update? && io.torn == d.contents[DualPart.Other(d.currentPartition)]))
  }

  /** How the new process answers the module's Init. */
  function RestartIo(l: SystemLabel, d: DualPart.Dual): DualPart.InitIo
    requires l.Stops?
  {
    match DualPart.Created(DualPartRuns.Booted(d, l.boots), l.createOk)
    case Some(created) => l.next.dualInit(created).(checkOk := l.createOk)
    case None => l.next.dualInit(d).(checkOk := l.createOk)
  }

  /** A new process reads the record of every module that has an update under way. */
  ghost predicate ReadsRecords(l: SystemLabel)
    requires l.Stops?
  {
    forall id :: id in l.stopped && l.stopped[id].Dual? ==>
      var d := l.stopped[id].d; DualPartRuns.Succeeds(d, DualPartRuns.Restart(l.boots, RestartIo(l, d)))
  }

  function EventOf(l: SystemLabel): Option<Event> {
    match l
    case Runs(_, event, _) => Some(event)
    case Stops(_, during, _, _, _, _, _) => during
  }

  ghost predicate CarefulLabel(l: SystemLabel) {
    EventOf(l).Some? ==> Careful(l.out, EventOf(l).value)
  }

  ghost predicate AllCareful(labels: seq<SystemLabel>) {
    forall i {:trigger labels[i]} :: 0 <= i < |labels| ==>
        CarefulLabel(labels[i]) && (labels[i].Stops? ==> ReadsRecords(labels[i]))
  }

  /** The step is the event's call of the module, with the answers it meets and the request it is made for. */
  ghost predicate CallOf(out: Outside, event: Event, v: View<AnyModule>, id: string, d: DualPart.Dual,
                         s: DualPartRuns.Step) {
    match s
    case Prepare(path, io) =>
      && event.Prepare? && io == out.dual(d)
      && var infos := Accepted(v.installed, event.infos).infos;
         id in infos && path == out.path(infos[id])
    case Update(io) => event.Update? && io == out.dual(d)
    case Apply(io) => event.Apply? && io == out.dual(d)
    case Revert(io) => event.Revert? && io == out.dual(d)
    case Restart(_, _) => false
  }

  /** What a call does to a dual-partition module is a step of its runs, or nothing. */
  lemma OneCall(out: Outside, semver: Precedence, v: View<AnyModule>, event: Event, id: string, version: string,
                made: nat, d: DualPart.Dual)
    returns (step: Option<DualPartRuns.Step>)
    ensures var m := EventCalls(out, semver, v, event).operate(id, version, made, Dual(d)).next;
      match step
      case None => m == Dual(d) && event.Prepare?
      case Some(s) => m == Dual(DualPartRuns.NextDual(d, s)) && StepOfEvent(event, s)
                      && CallOf(out, event, v, id, d, s)
                      && (CarefulAt(event, d, out.dual(d)) ==> CarefulStep(event, d, s))
    ensures EventCalls(out, semver, v, event).operate(id, version, made, Dual(d)).result == RebootRequired ==>
              step.Some? && DualPartRuns.Result(d, step.value) == RebootRequired
  {
    var io := out.dual(d);
    match event
    case Update =>
      UpdateOperates(EnvOf(out), id, version, made, Dual(d));
      step := Some(DualPartRuns.Update(io));
    case Apply =>
      step := Some(DualPartRuns.Apply(io));
    case Revert =>
      step := Some(DualPartRuns.Revert(io));
    case Prepare(infos) =>
      step := PrepareCall(out, semver, infos, Accepted(v.installed, infos).infos, id, d);
  }

  /** The step succeeds or does no harm, and ends an update under way where the event is to end it. */
  predicate CarefulStep(event: Event, d: DualPart.Dual, s: DualPartRuns.Step) {
    && DualPartRuns.Harmless(d, s)
    && (event.Apply? || event.Revert? ==> DualPartRuns.NextDual(d, s).state.state != DualPart.Updated)
  }

  lemma PrepareCall(out: Outside, semver: Precedence, request: seq<UpdateInfo>, infos: map<string, UpdateInfo>,
                    id: string, d: DualPart.Dual)
    returns (step: Option<DualPartRuns.Step>)
    ensures var m := DoPrepare(EnvOf(out), semver, infos, id, Dual(d)).next;
      match step
      case None => m == Dual(d)
      case Some(s) => s.Prepare? && m == Dual(DualPartRuns.NextDual(d, s))
                      && id in infos && s.imagePath == out.path(infos[id]) && s.io == out.dual(d)
                      && (CarefulAt(Prepare(request), d, out.dual(d)) ==> DualPartRuns.Harmless(d, s))
  {
    var env := EnvOf(out);
    if id !in infos || VerifySemver(semver, d.version, infos[id].version).Some? || env.fetch(infos[id]).Some? {
      step := None;
    } else {
      step := Some(DualPartRuns.Prepare(out.path(infos[id]), out.dual(d)));
      assert env.prepare(Dual(d), infos[id]) == PrepareOf(out, Dual(d), infos[id]);
    }
  }

  predicate StepOfEvent(event: Event, s: DualPartRuns.Step) {
    match event
    case Prepare(_) => s.Prepare?
    case Update => s.Update?
    case Apply => s.Apply?
    case Revert => s.Revert?
  }

  lemma OverStaysOver(out: Outside, semver: Precedence, v: View<AnyModule>, event: Event, id: string, version: string,
                      made: nat, m: AnyModule)
    ensures EventCalls(out, semver, v, event).operate(id, version, made, m).next.Over? == m.Over?
    ensures EventCalls(out, semver, v, event).reboot(m).next == m
  {
  }

  // ---------------------------------------------------------------- the invariant of the system

  predicate IsUpdated(m: AnyModule) {
    m.Dual? && m.d.state.state == DualPart.Updated
  }

  predicate CoherentModule(m: AnyModule) {
    m.Dual? ==> DualPartRuns.Coherent(m.d)
  }

  predicate PendingIn(record: HandlerState, id: string) {
    record.updateState != StateIdle && id in record.statuses
  }

  /** An update is under way in a module only while the handler has the component's transaction open, in memory and in
      storage. */
  ghost predicate Linked(v: View<AnyModule>) {
    forall id :: id in v.components && IsUpdated(v.components[id].updateModule) ==>
        PendingIn(v.state, id) && PendingIn(v.saved, id)
  }

  ghost predicate ModulesOK(v: View<AnyModule>) {
    forall id :: id in v.components ==>
        CoherentModule(v.components[id].updateModule) && KnownModule(v.components[id].updateModule)
  }

  ghost predicate SystemInvariant(v: View<AnyModule>) {
    Invariant(v) && Linked(v) && ModulesOK(v)
  }

  lemma CallKeepsModule(out: Outside, semver: Precedence, v: View<AnyModule>, event: Event, id: string, version: string,
                        made: nat, m: AnyModule)
    requires Careful(out, event)
    ensures var m' := EventCalls(out, semver, v, event).operate(id, version, made, m).next;
      && (CoherentModule(m) ==> CoherentModule(m')) && (KnownModule(m) ==> KnownModule(m'))
      && (!event.Update? && !IsUpdated(m) ==> !IsUpdated(m'))
      && (event.Apply? || event.Revert? ==> !IsUpdated(m'))
  {
    hide EventCalls;
    OverStaysOver(out, semver, v, event, id, version, made, m);
    if m.Dual? {
      var step := OneCall(out, semver, v, event, id, version, made, m.d);
      if step.Some? {
        StepKeepsModule(m.d, step.value);
      }
    }
  }

  lemma StepKeepsModule(d: DualPart.Dual, s: DualPartRuns.Step)
    requires !s.Restart? && DualPartRuns.Harmless(d, s)
    ensures DualPartRuns.Coherent(d) ==> DualPartRuns.Coherent(DualPartRuns.NextDual(d, s))
    ensures DualPartRuns.Known(d) ==> DualPartRuns.Known(DualPartRuns.NextDual(d, s))
    ensures !s.Update? && d.state.state != DualPart.Updated ==>
            DualPartRuns.NextDual(d, s).state.state != DualPart.Updated
  {
  }

  /** Calls keep modules coherent and known; only Update gets one into an update. */
  lemma TouchedKeeps(out: Outside, semver: Precedence, v: View<AnyModule>, event: Event, id: string,
                     component: Component<AnyModule>, stored: Option<string>)
    requires Careful(out, event) && id in v.components && LeftBy(out, semver, v, event, id, component, stored)
    ensures CoherentModule(v.components[id].updateModule) ==> CoherentModule(component.updateModule)
    ensures KnownModule(v.components[id].updateModule) ==> KnownModule(component.updateModule)
    ensures !event.Update? && !IsUpdated(v.components[id].updateModule) ==> !IsUpdated(component.updateModule)
  {
    if component != v.components[id] {
      var calls, begun := EventCalls(out, semver, v, event), Begun(v, event);
      var e: Entry<AnyModule> :| Leads(calls, begun, id, e, component, stored);
      EntryKeeps(out, semver, v, event, id, Entries(begun)[id], e);
    }
  }

  lemma EntryKeeps(out: Outside, semver: Precedence, v: View<AnyModule>, event: Event, id: string, e0: Entry<AnyModule>,
                   e: Entry<AnyModule>)
    requires Careful(out, event) && e0.component.Some? && Reached(EventCalls(out, semver, v, event), id, e0, e)
    ensures e.component.Some?
    ensures CoherentModule(e0.component.value.updateModule) ==> CoherentModule(e.component.value.updateModule)
    ensures KnownModule(e0.component.value.updateModule) ==> KnownModule(e.component.value.updateModule)
    ensures !event.Update? && !IsUpdated(e0.component.value.updateModule) ==> !IsUpdated(e.component.value.updateModule)
  {
    hide EventCalls, Reached, CoherentModule, KnownModule, IsUpdated, Careful;
    var calls := EventCalls(out, semver, v, event);
    var before := e0.component.value.updateModule;
    forall made: nat, m: AnyModule
      ensures CoherentModule(m) ==> CoherentModule(calls.operate(id, e0.status.version, made, m).next)
      ensures KnownModule(m) ==> KnownModule(calls.operate(id, e0.status.version, made, m).next)
      ensures !event.Update? && !IsUpdated(m) ==> !IsUpdated(calls.operate(id, e0.status.version, made, m).next)
    {
      CallKeepsModule(out, semver, v, event, id, e0.status.version, made, m);
    }
    forall m: AnyModule ensures calls.reboot(m).next == m {
      OverStaysOver(out, semver, v, event, id, e0.status.version, 0, m);
    }
    assert e.component.Some? by { HasComponent(calls, id, e0, e); }
    if CoherentModule(before) { ReachedKeeps(calls, id, e0, e, m => CoherentModule(m)); }
    if KnownModule(before) { ReachedKeeps(calls, id, e0, e, m => KnownModule(m)); }
    if !event.Update? && !IsUpdated(before) { ReachedKeeps(calls, id, e0, e, m => !IsUpdated(m)); }
  }

  lemma HasComponent<M(!new)>(calls: Calls<M>, id: string, e0: Entry<M>, e: Entry<M>)
    requires e0.component.Some? && Reached(calls, id, e0, e)
    ensures e.component.Some?
  {
  }

  /** After Apply or Revert no update is under way in a pending component. */
  lemma EndsUpdates(out: Outside, semver: Precedence, event: Event, saveOk: bool, v: View<AnyModule>,
                    v': View<AnyModule>, id: string)
    requires Careful(out, event) && Invariant(v) && (event.Apply? || event.Revert?) && id in v.state.statuses
    requires OperationEvent(EnvOf(out), EventCalls(out, semver, v, event), StateIdle, false, saveOk, v, v')
    ensures id in v'.components && !IsUpdated(v'.components[id].updateModule)
  {
    hide EventCalls, OperationEvent, Operation, Reached, IsUpdated, Careful;
    var calls := EventCalls(out, semver, v, event);
    var v1, err := InsideEvent(EnvOf(out), calls, StateIdle, false, saveOk, v, v');
    var begun := Entering(v, StateIdle);
    var e := OperationCalls(calls, begun, v1, err, id);
    forall made: nat, m: AnyModule
      ensures !IsUpdated(calls.operate(id, v.state.statuses[id].version, made, m).next)
    {
      CallKeepsModule(out, semver, v, event, id, v.state.statuses[id].version, made, m);
    }
    forall m: AnyModule ensures calls.reboot(m).next == m {
      OverStaysOver(out, semver, v, event, id, v.state.statuses[id].version, 0, m);
    }
    ReachedEstablishes(calls, id, Entries(begun)[id], e, m => !IsUpdated(m));
  }

  lemma ModulesStayOK(out: Outside, semver: Precedence, event: Event, saveOk: bool, v: View<AnyModule>,
                      v': View<AnyModule>)
    requires Careful(out, event) && Invariant(v) && ModulesOK(v) && EventStep(EnvOf(out), semver, event, saveOk, v, v')
    ensures ModulesOK(v')
  {
    hide EventStep, Careful, LeftBy, CoherentModule, KnownModule, Invariant;
    StepKeepsInvariant(semver, Happens(EnvOf(out), event, saveOk), v, v') by {
      assert Step(semver, Happens(EnvOf(out), event, saveOk), v, v');
    }
    forall id | id in v'.components
      ensures CoherentModule(v'.components[id].updateModule) && KnownModule(v'.components[id].updateModule)
    {
      EventLeaves(out, semver, event, saveOk, v, v', id);
      TouchedKeeps(out, semver, v, event, id, v'.components[id], Lookup(v'.versions, id));
    }
  }

  /** An event other than Update leaves no update under way where there was none. */
  lemma NoneBegins(out: Outside, semver: Precedence, event: Event, saveOk: bool, v: View<AnyModule>,
                   v': View<AnyModule>, id: string)
    requires Careful(out, event) && Invariant(v) && EventStep(EnvOf(out), semver, event, saveOk, v, v')
    requires !event.Update? && id in v.components && !IsUpdated(v.components[id].updateModule)
    ensures id in v'.components && !IsUpdated(v'.components[id].updateModule)
  {
    hide EventStep, Careful, LeftBy, Invariant;
    EventLeaves(out, semver, event, saveOk, v, v', id);
    TouchedKeeps(out, semver, v, event, id, v'.components[id], Lookup(v'.versions, id));
  }

  lemma NoneUpdated(v: View<AnyModule>)
    requires forall id :: id in v.components ==> !IsUpdated(v.components[id].updateModule)
    ensures Linked(v)
  {
  }

  lemma UpdatedIsPending(v: View<AnyModule>, id: string)
    requires Linked(v) && id in v.components && IsUpdated(v.components[id].updateModule)
    ensures PendingIn(v.state, id) && PendingIn(v.saved, id)
  {
  }

  lemma PrepareKeepsLinked(out: Outside, semver: Precedence, infos: seq<UpdateInfo>, saveOk: bool, v: View<AnyModule>,
                           v': View<AnyModule>)
    requires Careful(out, Prepare(infos)) && Invariant(v) && Linked(v) && v.fsm == StateIdle
    requires EventStep(EnvOf(out), semver, Prepare(infos), saveOk, v, v') && v'.components.Keys == v.components.Keys
    ensures Linked(v')
  {
    assert v.state.updateState == StateIdle;
    hide EventStep, Careful, Linked, IsUpdated, Invariant;
    forall id | id in v'.components ensures !IsUpdated(v'.components[id].updateModule) {
      if IsUpdated(v.components[id].updateModule) { UpdatedIsPending(v, id); }
      NoneBegins(out, semver, Prepare(infos), saveOk, v, v', id);
    }
    NoneUpdated(v');
  }

  lemma EndKeepsLinked(out: Outside, semver: Precedence, event: Event, saveOk: bool, v: View<AnyModule>,
                       v': View<AnyModule>)
    requires Careful(out, event) && Invariant(v) && Linked(v) && (event.Apply? || event.Revert?) &&
             Enabled(v.fsm, event)
    requires EventStep(EnvOf(out), semver, event, saveOk, v, v') && v'.components.Keys == v.components.Keys
    ensures Linked(v')
  {
    AsOperation(out, semver, event, saveOk, v, v');
    hide EventStep, OperationEvent, Careful, IsUpdated, Linked, Invariant, EventCalls, Enabled;
    forall id | id in v'.components ensures !IsUpdated(v'.components[id].updateModule) {
      if id in v.state.statuses {
        EndsUpdates(out, semver, event, saveOk, v, v', id);
      } else {
        if IsUpdated(v.components[id].updateModule) { UpdatedIsPending(v, id); }
        NoneBegins(out, semver, event, saveOk, v, v', id);
      }
    }
    NoneUpdated(v');
  }

  lemma AsOperation(out: Outside, semver: Precedence, event: Event, saveOk: bool, v: View<AnyModule>,
                    v': View<AnyModule>)
    requires (event.Apply? || event.Revert?) && Enabled(v.fsm, event) &&
             EventStep(EnvOf(out), semver, event, saveOk, v, v')
    ensures OperationEvent(EnvOf(out), EventCalls(out, semver, v, event), StateIdle, false, saveOk, v, v')
  {
    hide OperationEvent;
  }

  lemma UpdateKeepsLinked(out: Outside, semver: Precedence, saveOk: bool, v: View<AnyModule>, v': View<AnyModule>)
    requires Invariant(v) && Linked(v) && v.fsm == StatePrepared
    requires EventStep(EnvOf(out), semver, Update, saveOk, v, v') && v'.components.Keys == v.components.Keys
    ensures Linked(v')
  {
    hide OperationEvent, IsUpdated, Invariant;
    forall id | id in v'.components && IsUpdated(v'.components[id].updateModule)
      ensures PendingIn(v'.state, id) && PendingIn(v'.saved, id)
    {
      UpdatedStaysPending(out, semver, saveOk, v, v', id);
    }
  }

  lemma UpdatedStaysPending(out: Outside, semver: Precedence, saveOk: bool, v: View<AnyModule>, v': View<AnyModule>,
                            id: string)
    requires Invariant(v) && Linked(v) && v.fsm == StatePrepared && id in v.components && id in v'.components
    requires OperationEvent(EnvOf(out), UpdateCalls(EnvOf(out)), StateUpdated, true, saveOk, v, v')
    requires IsUpdated(v'.components[id].updateModule)
    ensures PendingIn(v'.state, id) && PendingIn(v'.saved, id)
  {
    var calls := UpdateCalls(EnvOf(out));
    hide OperationEvent, Operation, Reached, UpdateCalls, IsUpdated, Linked;
    var v1, err := InsideEvent(EnvOf(out), calls, StateUpdated, true, saveOk, v, v');
    OperationTouches(calls, true, Entering(v, StateUpdated), v1, err, id);
    if id !in v.state.statuses {
      UpdatedIsPending(v, id);
    }
  }

  lemma EventKeepsSystem(out: Outside, semver: Precedence, event: Event, saveOk: bool, v: View<AnyModule>,
                         v': View<AnyModule>)
    requires Careful(out, event) && SystemInvariant(v) && EventStep(EnvOf(out), semver, event, saveOk, v, v')
    ensures SystemInvariant(v')
  {
    StepKeepsInvariant(semver, Happens(EnvOf(out), event, saveOk), v, v');
    ModulesStayOK(out, semver, event, saveOk, v, v');
    if Enabled(v.fsm, event) {
      hide EventStep, Careful, Linked, ModulesOK, Invariant;
      match event
      case Prepare(infos) => PrepareKeepsLinked(out, semver, infos, saveOk, v, v');
      case Update => UpdateKeepsLinked(out, semver, saveOk, v, v');
      case Apply => EndKeepsLinked(out, semver, event, saveOk, v, v');
      case Revert => EndKeepsLinked(out, semver, event, saveOk, v, v');
    }
  }

  // ---------------------------------------------------------------- stops

  /** What a new process makes of a dual-partition module is a restart of its runs. */
  lemma InitIsRestart(l: SystemLabel, d: DualPart.Dual)
    requires l.Stops? && Created(l, Dual(d)).Some?
    ensures DualPartRuns.Starts(d, l.boots, RestartIo(l, d))
    ensures InitOf(l.next, Created(l, Dual(d)).value).next == Dual(DualPartRuns.Restarted(d, l.boots, RestartIo(l, d)))
  {
    var created := DualPart.Created(DualPartRuns.Booted(d, l.boots), l.createOk).value;
    SameInit(created, l.next.dualInit(created), l.createOk);
  }

  /** Init does not look at the answer to the check, which precedes it. */
  lemma SameInit(d: DualPart.Dual, io: DualPart.InitIo, checkOk: bool)
    ensures DualPart.Init(d, io.(checkOk := checkOk)) == DualPart.Init(d, io)
  {
    hide BootOK, CurrentBoot, MainBoot;
  }

  /** A stopped component: calls kept it coherent, and an update under way in it is the handler's. */
  lemma StoppedModule(l: SystemLabel, semver: Precedence, v: View<AnyModule>, v': View<AnyModule>, id: string)
    requires l.Stops? && StopStep(l, semver, v, v') && SystemInvariant(v) && CarefulLabel(l) && id in v.components
    ensures CoherentModule(l.stopped[id])
    ensures IsUpdated(l.stopped[id]) ==> PendingIn(v.saved, id)
  {
    hide RestartStep, Careful, Created, LeftBy;
    if l.during.Some? {
      LeftModule(l.out, semver, v, l.during.value, id, v.components[id].(updateModule := l.stopped[id]),
          Lookup(v'.versions, id));
    }
  }

  lemma LeftModule(out: Outside, semver: Precedence, v: View<AnyModule>, event: Event, id: string,
                   component: Component<AnyModule>, stored: Option<string>)
    requires SystemInvariant(v) && Careful(out, event) && id in v.components &&
             LeftBy(out, semver, v, event, id, component, stored)
    ensures CoherentModule(component.updateModule)
    ensures IsUpdated(component.updateModule) ==> PendingIn(v.saved, id)
  {
    TouchedKeeps(out, semver, v, event, id, component, stored);
    hide Careful, Touched, CoherentModule, KnownModule, IsUpdated;
    if event.Update? && component != v.components[id] {
      UpdatePending(out, semver, v, id, component, stored);
    }
  }

  lemma UpdatePending(out: Outside, semver: Precedence, v: View<AnyModule>, id: string, component: Component<AnyModule>,
                      stored: Option<string>)
    requires Invariant(v) && v.fsm == StatePrepared && id in v.components && component != v.components[id]
    requires Touched(EventCalls(out, semver, v, Update), Begun(v, Update), id, component, stored)
    ensures PendingIn(v.saved, id)
  {
    hide Reached;
  }

  lemma RestartedModule(l: SystemLabel, d: DualPart.Dual)
    requires l.Stops? && Created(l, Dual(d)).Some? && DualPartRuns.Coherent(d)
    requires DualPartRuns.Succeeds(d, DualPartRuns.Restart(l.boots, RestartIo(l, d)))
    ensures var m := InitOf(l.next, Created(l, Dual(d)).value).next;
      && CoherentModule(m) && KnownModule(m) && (IsUpdated(m) ==> IsUpdated(Dual(d)))
  {
    InitIsRestart(l, d);
    DualPartRuns.AfterRestart(d, l.boots, RestartIo(l, d));
    hide DualPartRuns.Restarted, DualPartRuns.Starts, DualPartRuns.ReadsRecord, InitOf, Created, RestartIo;
  }

  lemma StopKeepsModule(l: SystemLabel, semver: Precedence, v: View<AnyModule>, v': View<AnyModule>, id: string)
    requires l.Stops? && StopStep(l, semver, v, v') && SystemInvariant(v) && CarefulLabel(l) && ReadsRecords(l) &&
             id in v.components
    ensures id in v'.components
    ensures CoherentModule(v'.components[id].updateModule) && KnownModule(v'.components[id].updateModule)
    ensures IsUpdated(v'.components[id].updateModule) ==> PendingIn(v.saved, id)
  {
    StoppedModule(l, semver, v, v', id);
    hide SystemInvariant, LeftBy, Careful, Started, Created, InitOf, RestartIo, DualPartRuns.Succeeds;
    if l.stopped[id].Dual? {
      RestartedModule(l, l.stopped[id].d);
    } else {
      OverRestarts(l, l.stopped[id]);
    }
  }

  lemma StopKeepsSystem(l: SystemLabel, semver: Precedence, v: View<AnyModule>, v': View<AnyModule>)
    requires l.Stops? && StopStep(l, semver, v, v') && SystemInvariant(v) && CarefulLabel(l) && ReadsRecords(l)
    ensures SystemInvariant(v')
  {
    StopKeepsInvariant(l, semver, v, v');
    hide StopStep, SystemInvariant, Careful, ReadsRecords, Invariant, CoherentModule, KnownModule, IsUpdated;
    forall id | id in v'.components
      ensures CoherentModule(v'.components[id].updateModule) && KnownModule(v'.components[id].updateModule)
      ensures IsUpdated(v'.components[id].updateModule) ==> PendingIn(v'.saved, id)
    {
      StopKeepsModule(l, semver, v, v', id);
    }
    AllTogether(v');
  }

  lemma StopKeepsInvariant(l: SystemLabel, semver: Precedence, v: View<AnyModule>, v': View<AnyModule>)
    requires l.Stops? && StopStep(l, semver, v, v') && SystemInvariant(v)
    ensures Invariant(v') && v'.components.Keys == v.components.Keys && v'.state == v.saved && v'.saved == v.saved
  {
    hide LeftBy, Created, InitOf, Invariant, Linked, ModulesOK;
    StepKeepsInvariant(semver, Restarts(EnvOf(l.next)), v, v');
  }

  lemma AllTogether(v: View<AnyModule>)
    requires Invariant(v) && v.state == v.saved
    requires forall id :: id in v.components ==>
               CoherentModule(v.components[id].updateModule) && KnownModule(v.components[id].updateModule)
    requires forall id :: id in v.components && IsUpdated(v.components[id].updateModule) ==> PendingIn(v.saved, id)
    ensures SystemInvariant(v)
  {
  }

  lemma OverRestarts(l: SystemLabel, m: AnyModule)
    requires l.Stops? && m.Over?
    ensures Created(l, m).Some? && InitOf(l.next, Created(l, m).value).next.Over?
  {
  }

  lemma SystemStepAt(semver: Precedence, labels: seq<SystemLabel>, views: seq<View<AnyModule>>, i: nat)
    requires SystemRun(semver, labels, views) && AllCareful(labels) && i < |labels| && SystemInvariant(views[i])
    ensures SystemInvariant(views[i + 1])
  {
    hide EventStep, StopStep, SystemInvariant, Careful, ReadsRecords;
    var l := labels[i];
    match l
    case Runs(out, event, saveOk) => EventKeepsSystem(out, semver, event, saveOk, views[i], views[i + 1]);
    case Stops(_, _, _, _, _, _, _) => StopKeepsSystem(l, semver, views[i], views[i + 1]);
  }

  /** Over every run whose calls do no harm and whose new processes read the records: the handler's invariant, modules
      whose memory and storage agree, and updates under way only in open transactions. */
  lemma {:induction false} SystemInvariantAlways(semver: Precedence, labels: seq<SystemLabel>,
                                                 views: seq<View<AnyModule>>, i: nat)
    requires SystemRun(semver, labels, views) && AllCareful(labels) && SystemInvariant(views[0]) && i < |views|
    ensures SystemInvariant(views[i])
  {
    hide SystemStep, SystemInvariant, Careful, ReadsRecords;
    if i > 0 {
      SystemInvariantAlways(semver, labels, views, i - 1);
      SystemStepAt(semver, labels, views, i - 1);
    }
  }

  // ---------------------------------------------------------------- a module's run within the system's

  function Latest(states: seq<DualPartRuns.Run>): DualPartRuns.Run
    requires states != []
  {
    states[|states| - 1]
  }

  /** The handler acts on the event, and the component takes part in it. */
  predicate Acts(v: View<AnyModule>, event: Event, id: string) {
    Enabled(v.fsm, event) && !Turned(v, event) && id in Begun(v, event).state.statuses
  }

  /** The step is a call of the label's event, or the restart of the module as the label's stop left it. */
  ghost predicate MadeBy(l: SystemLabel, v: View<AnyModule>, id: string, d: DualPart.Dual, s: DualPartRuns.Step) {
    if s.Restart? then
      l.Stops? && id in l.stopped && l.stopped[id] == Dual(d) && s == DualPartRuns.Restart(l.boots, RestartIo(l, d))
    else
      EventOf(l).Some? && Acts(v, EventOf(l).value, id) && CallOf(l.out, EventOf(l).value, v, id, d, s)
  }

  /** The steps from from to to are those the label makes: calls, a further one only after a request for a reboot, and
      at the end of a stop, and only there, the restart. */
  ghost predicate Group(l: SystemLabel, v: View<AnyModule>, id: string, states: seq<DualPartRuns.Run>,
                        steps: seq<DualPartRuns.Step>, from: nat, to: nat)
    requires |states| == |steps| + 1 && from <= to <= |steps|
  {
    && (l.Stops? ==> from < to)
    && forall k {:trigger steps[k]} :: from <= k < to ==>
         && MadeBy(l, v, id, states[k].d, steps[k])
         && (steps[k].Restart? <==> l.Stops? && k == to - 1)
         && (k > from && !steps[k].Restart? ==> Asks(states, steps, k - 1))
  }

  predicate Asks(states: seq<DualPartRuns.Run>, steps: seq<DualPartRuns.Step>, k: nat)
    requires |states| == |steps| + 1 && k < |steps|
  {
    DualPartRuns.Result(states[k].d, steps[k]) == RebootRequired
  }

  /** What a dual-partition module goes through in the first j steps of the system: label by label the steps it makes,
      and between them the module as the views show it. */
  ghost predicate RunOf(labels: seq<SystemLabel>, views: seq<View<AnyModule>>, j: nat, id: string,
                        states: seq<DualPartRuns.Run>, steps: seq<DualPartRuns.Step>, cuts: seq<nat>)
    requires j <= |labels| < |views|
  {
    && DualPartRuns.Trace(states, steps)
    && |cuts| == j + 1 && cuts[0] == 0 && cuts[j] == |steps|
    && Shown(views, j, id, states, cuts) && Grouped(labels, views, j, id, states, steps, cuts)
  }

  ghost predicate Shown(views: seq<View<AnyModule>>, j: nat, id: string, states: seq<DualPartRuns.Run>, cuts: seq<nat>)
    requires j < |views| && j < |cuts|
  {
    forall i: nat :: i <= j ==> ShownAt(views, i, id, states, cuts)
  }

  predicate ShownAt(views: seq<View<AnyModule>>, i: nat, id: string, states: seq<DualPartRuns.Run>, cuts: seq<nat>)
    requires i < |views| && i < |cuts|
  {
    cuts[i] < |states| && Shows(views[i], id, states[cuts[i]].d)
  }

  ghost predicate Grouped(labels: seq<SystemLabel>, views: seq<View<AnyModule>>, j: nat, id: string,
                          states: seq<DualPartRuns.Run>, steps: seq<DualPartRuns.Step>, cuts: seq<nat>)
    requires j <= |labels| < |views| && j < |cuts| && |states| == |steps| + 1
  {
    forall i: nat :: i < j ==> GroupAt(labels, views, i, id, states, steps, cuts)
  }

  ghost predicate GroupAt(labels: seq<SystemLabel>, views: seq<View<AnyModule>>, i: nat, id: string,
                          states: seq<DualPartRuns.Run>, steps: seq<DualPartRuns.Step>, cuts: seq<nat>)
    requires i < |labels| < |views| && i + 1 < |cuts| && |states| == |steps| + 1
  {
    cuts[i] <= cuts[i + 1] <= |steps| && Group(labels[i], views[i], id, states, steps, cuts[i], cuts[i + 1])
  }

  predicate Shows(v: View<AnyModule>, id: string, d: DualPart.Dual) {
    id in v.components && v.components[id].updateModule == Dual(d)
  }

  // the calls of one event

  /** The calls an event makes. */
  ghost predicate CallsMade(out: Outside, event: Event, v: View<AnyModule>, id: string, states: seq<DualPartRuns.Run>,
                            steps: seq<DualPartRuns.Step>) {
    && DualPartRuns.Trace(states, steps)
    && (forall k {:trigger steps[k]} :: 0 <= k < |steps| ==> CallOf(out, event, v, id, states[k].d, steps[k]))
    && (forall k :: 0 <= k < |steps| - 1 ==> Asks(states, steps, k))
  }

  /** If the last operation among the first k calls asked for a reboot, so did the last step. */
  ghost predicate AskedLast(history: seq<Call<AnyModule>>, k: nat, states: seq<DualPartRuns.Run>,
                            steps: seq<DualPartRuns.Step>)
    requires k <= |history| && |states| == |steps| + 1
  {
    if k == 0 then steps == []
    else history[(k - 1) / 2 * 2].answer.result == RebootRequired ==> steps != [] && Asks(states, steps, |steps| - 1)
  }

  lemma OneMoreStep(states: seq<DualPartRuns.Run>, steps: seq<DualPartRuns.Step>, step: DualPartRuns.Step)
    returns (states': seq<DualPartRuns.Run>, steps': seq<DualPartRuns.Step>)
    requires DualPartRuns.Trace(states, steps) && DualPartRuns.Possible(Latest(states).d, step)
    ensures DualPartRuns.Trace(states', steps')
    ensures states' == states + [DualPartRuns.Next(Latest(states), step)] && steps' == steps + [step]
  {
    hide DualPartRuns.Next, DualPartRuns.Possible;
    states', steps' := states + [DualPartRuns.Next(Latest(states), step)], steps + [step];
    assert forall k {:trigger steps'[k]} :: 0 <= k < |steps| ==> steps'[k] == steps[k] && states'[k] == states[k];
  }

  lemma OneMoreCall(out: Outside, event: Event, v: View<AnyModule>, id: string, states: seq<DualPartRuns.Run>,
                    steps: seq<DualPartRuns.Step>, step: DualPartRuns.Step)
    returns (states': seq<DualPartRuns.Run>, steps': seq<DualPartRuns.Step>)
    requires CallsMade(out, event, v, id, states, steps) && CallOf(out, event, v, id, Latest(states).d, step)
    requires steps == [] || Asks(states, steps, |steps| - 1)
    ensures CallsMade(out, event, v, id, states', steps') && states'[0] == states[0]
    ensures states' == states + [DualPartRuns.Next(Latest(states), step)] && steps' == steps + [step]
  {
    CallIsPossible(out, event, v, id, Latest(states).d, step);
    hide CallOf, DualPartRuns.Possible, DualPartRuns.Next, DualPartRuns.Result;
    states', steps' := OneMoreStep(states, steps, step);
    CallsGoOn(out, event, v, id, states, steps, states', steps');
  }

  lemma CallsGoOn(out: Outside, event: Event, v: View<AnyModule>, id: string, states: seq<DualPartRuns.Run>,
                  steps: seq<DualPartRuns.Step>, states': seq<DualPartRuns.Run>, steps': seq<DualPartRuns.Step>)
    requires CallsMade(out, event, v, id, states, steps) && DualPartRuns.Trace(states', steps')
    requires states <= states' && steps <= steps' && |steps'| == |steps| + 1
    requires CallOf(out, event, v, id, states'[|steps|].d, steps'[|steps|])
    requires steps == [] || Asks(states, steps, |steps| - 1)
    ensures CallsMade(out, event, v, id, states', steps')
  {
    hide CallOf, DualPartRuns.Next, DualPartRuns.Possible, DualPartRuns.Result;
    forall k {:trigger steps'[k]} | 0 <= k < |steps'| ensures CallOf(out, event, v, id, states'[k].d, steps'[k]) {
      if k < |steps| { assert steps'[k] == steps[k] && states'[k] == states[k]; }
    }
    forall k | 0 <= k < |steps'| - 1 ensures Asks(states', steps', k) {
      assert steps'[k] == steps[k] && states'[k] == states[k] && Asks(states, steps, k);
    }
  }

  lemma CallIsPossible(out: Outside, event: Event, v: View<AnyModule>, id: string, d: DualPart.Dual,
                       s: DualPartRuns.Step)
    requires CallOf(out, event, v, id, d, s)
    ensures DualPartRuns.Possible(d, s)
  {
  }

  lemma CallRun(out: Outside, semver: Precedence, v: View<AnyModule>, event: Event, id: string, e0: Entry<AnyModule>,
                history: seq<Call<AnyModule>>, k: nat, states: seq<DualPartRuns.Run>, steps: seq<DualPartRuns.Step>)
    returns (states': seq<DualPartRuns.Run>, steps': seq<DualPartRuns.Step>)
    requires e0.component.Some? && k < |history| && Link(EventCalls(out, semver, v, event), id, e0, history, k)
    requires k > 0 ==> Link(EventCalls(out, semver, v, event), id, e0, history, k - 1)
    requires CallsMade(out, event, v, id, states, steps) && ModuleAt(e0, history, k) == Dual(Latest(states).d)
    requires AskedLast(history, k, states, steps)
    ensures CallsMade(out, event, v, id, states', steps') && states'[0] == states[0]
    ensures ModuleAt(e0, history, k + 1) == Dual(Latest(states').d) && AskedLast(history, k + 1, states', steps')
  {
    hide EventCalls, DualPartRuns.NextDual, DualPartRuns.Result, CallOf, CarefulAt, CarefulStep, StepOfEvent;
    states', steps' := states, steps;
    var d := Latest(states).d;
    OverStaysOver(out, semver, v, event, id, e0.status.version, k, Dual(d));
    if k % 2 == 0 {
      var step := OneCall(out, semver, v, event, id, e0.status.version, k, d);
      if step.Some? {
        states', steps' := OneMoreCall(out, event, v, id, states, steps, step.value);
      }
    }
  }

  lemma {:induction false} HistoryRun(out: Outside, semver: Precedence, v: View<AnyModule>, event: Event, id: string,
                                      e0: Entry<AnyModule>, history: seq<Call<AnyModule>>, k: nat, r: DualPartRuns.Run)
    returns (states: seq<DualPartRuns.Run>, steps: seq<DualPartRuns.Step>)
    requires e0.component.Some? && k <= |history| && e0.component.value.updateModule == Dual(r.d)
    requires forall i: nat :: i < |history| ==> Link(EventCalls(out, semver, v, event), id, e0, history, i)
    ensures CallsMade(out, event, v, id, states, steps) && states[0] == r
    ensures ModuleAt(e0, history, k) == Dual(Latest(states).d) && AskedLast(history, k, states, steps)
  {
    hide EventCalls;
    if k == 0 {
      states, steps := [r], [];
    } else {
      hide CallsMade, AskedLast;
      states, steps := HistoryRun(out, semver, v, event, id, e0, history, k - 1, r);
      assert Link(EventCalls(out, semver, v, event), id, e0, history, k - 1);
      states, steps := CallRun(out, semver, v, event, id, e0, history, k - 1, states, steps);
    }
  }

  /** What an event leaves of a dual-partition module are the calls it makes. */
  lemma LeftRun(out: Outside, semver: Precedence, v: View<AnyModule>, event: Event, id: string,
                component: Component<AnyModule>, stored: Option<string>, r: DualPartRuns.Run)
    returns (states: seq<DualPartRuns.Run>, steps: seq<DualPartRuns.Step>)
    requires id in v.components && LeftBy(out, semver, v, event, id, component, stored)
    requires v.components[id].updateModule == Dual(r.d)
    ensures CallsMade(out, event, v, id, states, steps) && states[0] == r && (steps != [] ==> Acts(v, event, id))
    ensures component.updateModule == Dual(Latest(states).d)
  {
    states, steps := [r], [];
    if component != v.components[id] {
      var calls, begun := EventCalls(out, semver, v, event), Begun(v, event);
      var e: Entry<AnyModule> :| Leads(calls, begun, id, e, component, stored);
      hide EventCalls, CallsMade;
      states, steps := HistoryRun(out, semver, v, event, id, Entries(begun)[id], e.history, |e.history|, r);
    }
  }

  // one step of the system

  lemma CallsAreGroup(l: SystemLabel, v: View<AnyModule>, id: string, states: seq<DualPartRuns.Run>,
                      steps: seq<DualPartRuns.Step>)
    requires EventOf(l).Some? && CallsMade(l.out, EventOf(l).value, v, id, states, steps) && l.Runs?
    requires steps != [] ==> Acts(v, EventOf(l).value, id)
    ensures Group(l, v, id, states, steps, 0, |steps|)
  {
  }

  /** The restart at the end of a stop. */
  lemma RestartRun(l: SystemLabel, v: View<AnyModule>, id: string, states: seq<DualPartRuns.Run>,
                   steps: seq<DualPartRuns.Step>)
    returns (states': seq<DualPartRuns.Run>, steps': seq<DualPartRuns.Step>)
    requires l.Stops? && DualPartRuns.Trace(states, steps)
    requires steps != [] ==>
               && EventOf(l).Some? && Acts(v, EventOf(l).value, id)
               && CallsMade(l.out, EventOf(l).value, v, id, states, steps)
    requires Created(l, Dual(Latest(states).d)).Some? && id in l.stopped && l.stopped[id] == Dual(Latest(states).d)
    ensures DualPartRuns.Trace(states', steps') && states'[0] == states[0]
    ensures Group(l, v, id, states', steps', 0, |steps'|)
    ensures InitOf(l.next, Created(l, Dual(Latest(states).d)).value).next == Dual(Latest(states').d)
  {
    var d := Latest(states).d;
    InitIsRestart(l, d);
    hide Created, InitOf, RestartIo, DualPartRuns.Starts, DualPartRuns.Restarted, CallsMade, Acts, Group;
    states', steps' := OneMoreStep(states, steps, DualPartRuns.Restart(l.boots, RestartIo(l, d)));
    StopIsGroup(l, v, id, states, steps, states', steps');
  }

  lemma StopIsGroup(l: SystemLabel, v: View<AnyModule>, id: string, states: seq<DualPartRuns.Run>,
                    steps: seq<DualPartRuns.Step>, states': seq<DualPartRuns.Run>, steps': seq<DualPartRuns.Step>)
    requires l.Stops? && |states| == |steps| + 1 && states <= states' && |states'| == |steps'| + 1
    requires steps != [] ==>
               && EventOf(l).Some? && Acts(v, EventOf(l).value, id)
               && CallsMade(l.out, EventOf(l).value, v, id, states, steps)
    requires id in l.stopped && l.stopped[id] == Dual(Latest(states).d)
    requires steps' == steps + [DualPartRuns.Restart(l.boots, RestartIo(l, Latest(states).d))]
    ensures Group(l, v, id, states', steps', 0, |steps'|)
  {
    hide RestartIo, Acts, CallOf, DualPartRuns.Result, DualPartRuns.Trace;
    forall k {:trigger steps'[k]} | 0 <= k < |steps'|
      ensures MadeBy(l, v, id, states'[k].d, steps'[k]) && (steps'[k].Restart? <==> k == |steps|)
      ensures k > 0 && !steps'[k].Restart? ==> Asks(states', steps', k - 1)
    {
      assert states'[k] == states[k];
      if k < |steps| {
        assert steps'[k] == steps[k];
        NoRestart(l.out, EventOf(l).value, v, id, states[k].d, steps[k]);
        assert k > 0 ==> Asks(states, steps, k - 1);
      }
    }
  }

  lemma NoRestart(out: Outside, event: Event, v: View<AnyModule>, id: string, d: DualPart.Dual, s: DualPartRuns.Step)
    requires CallOf(out, event, v, id, d, s)
    ensures !s.Restart?
  {
  }

  /** A stop, for one dual-partition module: the calls made, then the restart. */
  lemma StopRun(semver: Precedence, l: SystemLabel, v: View<AnyModule>, v': View<AnyModule>, id: string,
                r: DualPartRuns.Run)
    returns (states: seq<DualPartRuns.Run>, steps: seq<DualPartRuns.Step>)
    requires l.Stops? && StopStep(l, semver, v, v') && Shows(v, id, r.d)
    ensures DualPartRuns.Trace(states, steps) && states[0] == r && Group(l, v, id, states, steps, 0, |steps|)
    ensures Shows(v', id, Latest(states).d)
  {
    hide LeftBy, Started, Created, InitOf, RestartIo, CallsMade, Group, Acts;
    states, steps := [r], [];
    if l.during.Some? {
      states, steps := LeftRun(l.out, semver, v, l.during.value, id, v.components[id].(updateModule := l.stopped[id]),
                               Lookup(v'.versions, id), r);
      CallsAreTrace(l.out, l.during.value, v, id, states, steps);
    }
    assert l.stopped[id] == Dual(Latest(states).d);
    states, steps := RestartRun(l, v, id, states, steps);
  }

  lemma CallsAreTrace(out: Outside, event: Event, v: View<AnyModule>, id: string, states: seq<DualPartRuns.Run>,
                      steps: seq<DualPartRuns.Step>)
    requires CallsMade(out, event, v, id, states, steps)
    ensures DualPartRuns.Trace(states, steps)
  {
  }

  /** One step of the system, for one dual-partition module. */
  lemma StepRun(semver: Precedence, l: SystemLabel, v: View<AnyModule>, v': View<AnyModule>, id: string,
                r: DualPartRuns.Run)
    returns (states: seq<DualPartRuns.Run>, steps: seq<DualPartRuns.Step>)
    requires SystemStep(semver, l, v, v') && Invariant(v) && Shows(v, id, r.d)
    ensures DualPartRuns.Trace(states, steps) && states != [] && states[0] == r
    ensures Group(l, v, id, states, steps, 0, |steps|)
    ensures Shows(v', id, Latest(states).d)
  {
    hide EventStep, StopStep, LeftBy, Invariant, CallsMade, Group, Acts;
    match l
    case Runs(out, event, saveOk) =>
      EventLeaves(out, semver, event, saveOk, v, v', id);
      states, steps := LeftRun(out, semver, v, event, id, v'.components[id], Lookup(v'.versions, id), r);
      CallsAreTrace(out, event, v, id, states, steps);
      CallsAreGroup(l, v, id, states, steps);
    case Stops(_, _, _, _, _, _, _) =>
      states, steps := StopRun(semver, l, v, v', id, r);
  }

  // the whole run

  lemma Joined(states: seq<DualPartRuns.Run>, steps: seq<DualPartRuns.Step>, states1: seq<DualPartRuns.Run>,
               steps1: seq<DualPartRuns.Step>)
    requires DualPartRuns.Trace(states, steps) && DualPartRuns.Trace(states1, steps1) && states1[0] == Latest(states)
    ensures DualPartRuns.Trace(states + states1[1..], steps + steps1)
    ensures |states| == |steps| + 1 && |states1| == |steps1| + 1
    ensures forall k :: 0 <= k < |steps1| ==> (states + states1[1..])[|steps| + k] == states1[k]
    ensures Latest(states + states1[1..]) == Latest(states1)
  {
    hide DualPartRuns.Next, DualPartRuns.Possible;
    var all, made := states + states1[1..], steps + steps1;
    assert forall k :: 0 <= k < |steps1| ==> all[|steps| + k] == states1[k];
    forall k {:trigger made[k]} | 0 <= k < |made|
      ensures DualPartRuns.Possible(all[k].d, made[k]) && all[k + 1] == DualPartRuns.Next(all[k], made[k])
    {
      if k < |steps| {
        assert made[k] == steps[k];
      } else {
        assert made[k] == steps1[k - |steps|] && all[k + 1] == states1[k - |steps| + 1];
      }
    }
  }

  lemma GroupShifts(l: SystemLabel, v: View<AnyModule>, id: string, states: seq<DualPartRuns.Run>,
                    steps: seq<DualPartRuns.Step>, from: nat, to: nat, all: seq<DualPartRuns.Run>,
                    made: seq<DualPartRuns.Step>, shift: nat)
    requires |states| == |steps| + 1 && |all| == |made| + 1 && from <= to <= |steps| && to + shift <= |made|
    requires forall k :: from <= k < to ==> made[k + shift] == steps[k] && all[k + shift] == states[k]
    requires Group(l, v, id, states, steps, from, to)
    ensures Group(l, v, id, all, made, from + shift, to + shift)
  {
    hide MadeBy, DualPartRuns.Result;
    forall k {:trigger made[k]} | from + shift <= k < to + shift
      ensures MadeBy(l, v, id, all[k].d, made[k]) && (made[k].Restart? <==> l.Stops? && k == to + shift - 1)
      ensures k > from + shift && !made[k].Restart? ==> Asks(all, made, k - 1)
    {
      assert made[(k - shift) + shift] == steps[k - shift];
      if k > from + shift { assert made[(k - shift - 1) + shift] == steps[k - shift - 1]; }
    }
  }

  lemma GroupsStay(labels: seq<SystemLabel>, views: seq<View<AnyModule>>, j: nat, id: string,
                   states: seq<DualPartRuns.Run>, steps: seq<DualPartRuns.Step>, cuts: seq<nat>,
                   all: seq<DualPartRuns.Run>, made: seq<DualPartRuns.Step>, cuts': seq<nat>)
    requires j <= |labels| < |views| && |states| == |steps| + 1 && |all| == |made| + 1 && j < |cuts|
    requires Grouped(labels, views, j, id, states, steps, cuts)
    requires states <= all && steps <= made && cuts <= cuts'
    ensures Grouped(labels, views, j, id, all, made, cuts')
  {
    hide Group;
    forall i: nat | i < j ensures GroupAt(labels, views, i, id, all, made, cuts') {
      assert GroupAt(labels, views, i, id, states, steps, cuts);
      assert cuts'[i] == cuts[i] && cuts'[i + 1] == cuts[i + 1];
      GroupShifts(labels[i], views[i], id, states, steps, cuts[i], cuts[i + 1], all, made, 0);
    }
  }

  lemma ShownNext(views: seq<View<AnyModule>>, j: nat, id: string, states: seq<DualPartRuns.Run>, cuts: seq<nat>,
                  all: seq<DualPartRuns.Run>, cuts': seq<nat>)
    requires j + 1 < |views| && |cuts| == j + 1 && Shown(views, j, id, states, cuts)
    requires states <= all && |cuts'| == j + 2 && cuts <= cuts'
    requires cuts'[j + 1] < |all| && Shows(views[j + 1], id, all[cuts'[j + 1]].d)
    ensures Shown(views, j + 1, id, all, cuts')
  {
    hide Shows;
    forall i: nat | i <= j + 1 ensures ShownAt(views, i, id, all, cuts') {
      if i <= j {
        assert ShownAt(views, i, id, states, cuts);
        assert cuts'[i] == cuts[i] && all[cuts[i]] == states[cuts[i]];
      }
    }
  }

  lemma LastGroup(labels: seq<SystemLabel>, views: seq<View<AnyModule>>, j: nat, id: string,
                  states: seq<DualPartRuns.Run>, steps: seq<DualPartRuns.Step>, cuts: seq<nat>)
    requires j < |labels| < |views| && |states| == |steps| + 1 && j + 1 < |cuts| && cuts[j] <= cuts[j + 1] <= |steps|
    requires Grouped(labels, views, j, id, states, steps, cuts)
    requires Group(labels[j], views[j], id, states, steps, cuts[j], cuts[j + 1])
    ensures Grouped(labels, views, j + 1, id, states, steps, cuts)
  {
    hide Group;
  }

  lemma RunGoesOn(labels: seq<SystemLabel>, views: seq<View<AnyModule>>, i: nat, id: string,
                  states: seq<DualPartRuns.Run>, steps: seq<DualPartRuns.Step>, cuts: seq<nat>,
                  states1: seq<DualPartRuns.Run>, steps1: seq<DualPartRuns.Step>)
    requires i < |labels| < |views| && RunOf(labels, views, i, id, states, steps, cuts)
    requires DualPartRuns.Trace(states1, steps1) && states1[0] == Latest(states)
    requires Group(labels[i], views[i], id, states1, steps1, 0, |steps1|) && Shows(views[i + 1], id, Latest(states1).d)
    ensures RunOf(labels, views, i + 1, id, states + states1[1..], steps + steps1, cuts + [|steps| + |steps1|])
  {
    hide Group, Shows, Shown, GroupAt;
    Joined(states, steps, states1, steps1);
    hide DualPartRuns.Trace;
    var all, made, cuts' := states + states1[1..], steps + steps1, cuts + [|steps| + |steps1|];
    assert states <= all && steps <= made && cuts <= cuts';
    GroupsStay(labels, views, i, id, states, steps, cuts, all, made, cuts');
    GroupShifts(labels[i], views[i], id, states1, steps1, 0, |steps1|, all, made, |steps|);
    LastGroup(labels, views, i, id, all, made, cuts');
    ShownNext(views, i, id, states, cuts, all, cuts');
  }

  lemma RunEnds(labels: seq<SystemLabel>, views: seq<View<AnyModule>>, j: nat, id: string,
                states: seq<DualPartRuns.Run>, steps: seq<DualPartRuns.Step>, cuts: seq<nat>)
    requires j <= |labels| < |views| && RunOf(labels, views, j, id, states, steps, cuts)
    ensures DualPartRuns.Trace(states, steps) && |states| == |steps| + 1 && Shows(views[j], id, Latest(states).d)
  {
    hide Shows, Grouped, DualPartRuns.Next, DualPartRuns.Possible;
    assert ShownAt(views, j, id, states, cuts);
  }

  /** Within every run of the system each dual-partition module goes through a run of its own: label by label the calls
      the handler makes and the restarts. */
  lemma {:induction false} RunOfModule(semver: Precedence, labels: seq<SystemLabel>, views: seq<View<AnyModule>>,
                                       j: nat, id: string, r: DualPartRuns.Run)
    returns (states: seq<DualPartRuns.Run>, steps: seq<DualPartRuns.Step>, cuts: seq<nat>)
    requires SystemRun(semver, labels, views) && Invariant(views[0]) && j < |views| && Shows(views[0], id, r.d)
    ensures RunOf(labels, views, j, id, states, steps, cuts) && states != [] && states[0] == r
  {
    if j == 0 {
      states, steps, cuts := EmptyRun(labels, views, id, r);
    } else {
      hide SystemRun, RunOf, Invariant, Shows;
      states, steps, cuts := RunOfModule(semver, labels, views, j - 1, id, r);
      HandlerInvariant(semver, labels, views, j - 1);
      states, steps, cuts := NextRun(semver, labels, views, j - 1, id, states, steps, cuts);
    }
  }

  lemma NextRun(semver: Precedence, labels: seq<SystemLabel>, views: seq<View<AnyModule>>, i: nat, id: string,
                states: seq<DualPartRuns.Run>, steps: seq<DualPartRuns.Step>, cuts: seq<nat>)
    returns (states': seq<DualPartRuns.Run>, steps': seq<DualPartRuns.Step>, cuts': seq<nat>)
    requires SystemRun(semver, labels, views) && i < |labels| && Invariant(views[i]) && states != []
    requires RunOf(labels, views, i, id, states, steps, cuts)
    ensures RunOf(labels, views, i + 1, id, states', steps', cuts') && states' != [] && states'[0] == states[0]
  {
    hide RunOf, Group, Shows, SystemStep, Invariant, DualPartRuns.Trace;
    RunEnds(labels, views, i, id, states, steps, cuts);
    assert SystemStep(semver, labels[i], views[i], views[i + 1]);
    var states1, steps1 := StepRun(semver, labels[i], views[i], views[i + 1], id, Latest(states));
    RunGoesOn(labels, views, i, id, states, steps, cuts, states1, steps1);
    states', steps', cuts' := states + states1[1..], steps + steps1, cuts + [|steps| + |steps1|];
  }

  lemma EmptyRun(labels: seq<SystemLabel>, views: seq<View<AnyModule>>, id: string, r: DualPartRuns.Run)
    returns (states: seq<DualPartRuns.Run>, steps: seq<DualPartRuns.Step>, cuts: seq<nat>)
    requires |labels| < |views| && Shows(views[0], id, r.d)
    ensures RunOf(labels, views, 0, id, states, steps, cuts) && states != [] && states[0] == r
  {
    states, steps, cuts := [r], [], [0];
  }

  lemma HandlerInvariant(semver: Precedence, labels: seq<SystemLabel>, views: seq<View<AnyModule>>, i: nat)
    requires SystemRun(semver, labels, views) && Invariant(views[0]) && i < |views|
    ensures Invariant(views[i]) && views[i].components.Keys == views[0].components.Keys
  {
    hide SystemRun, Invariant;
    SystemRunIsRun(semver, labels, views);
    InvariantAlways(semver, HandlerLabels(labels), views, i);
  }

  // ---------------------------------------------------------------- from the labels to a module's run

  /** The label that made a step. */
  lemma {:induction false} LabelOf(cuts: seq<nat>, j: nat, k: nat) returns (i: nat)
    requires |cuts| > j && cuts[0] == 0 && k < cuts[j]
    ensures i < j && cuts[i] <= k < cuts[i + 1]
  {
    if cuts[j - 1] <= k { i := j - 1; } else { i := LabelOf(cuts, j - 1, k); }
  }

  /** An Apply the handler acts on. */
  predicate AppliesAt(l: SystemLabel, v: View<AnyModule>) {
    EventOf(l) == Some(Apply) && v.fsm == StateUpdated
  }

  /** One of the first j steps is, or begins with, such an Apply. */
  predicate AppliesBefore(labels: seq<SystemLabel>, views: seq<View<AnyModule>>, j: nat)
    requires j <= |labels| < |views|
  {
    exists k :: 0 <= k < j && AppliesAt(labels[k], views[k])
  }

  /** In a careful system a module's steps do no harm. */
  lemma RunSucceeds(labels: seq<SystemLabel>, views: seq<View<AnyModule>>, j: nat, id: string,
                    states: seq<DualPartRuns.Run>, steps: seq<DualPartRuns.Step>, cuts: seq<nat>)
    requires j <= |labels| < |views| && RunOf(labels, views, j, id, states, steps, cuts) && AllCareful(labels)
    ensures DualPartRuns.AllSucceed(states, steps)
  {
    hide CarefulLabel, ReadsRecords, MadeBy, DualPartRuns.Succeeds, DualPartRuns.Next, Shows;
    forall k {:trigger steps[k]} | 0 <= k < |steps| ensures DualPartRuns.Succeeds(states[k].d, steps[k]) {
      var i := LabelOf(cuts, j, k);
      assert GroupAt(labels, views, i, id, states, steps, cuts);
      MadeByCareful(labels[i], views[i], id, states[k].d, steps[k]);
    }
  }

  lemma MadeByCareful(l: SystemLabel, v: View<AnyModule>, id: string, d: DualPart.Dual, s: DualPartRuns.Step)
    requires MadeBy(l, v, id, d, s) && CarefulLabel(l) && (l.Stops? ==> ReadsRecords(l))
    ensures DualPartRuns.Succeeds(d, s)
  {
    hide Acts, RestartIo, DualPartRuns.ReadsRecord;
    if !s.Restart? { CarefulEverywhere(l.out, EventOf(l).value, d); }
  }

  lemma CarefulEverywhere(out: Outside, event: Event, d: DualPart.Dual)
    requires Careful(out, event)
    ensures CarefulAt(event, d, out.dual(d))
  {
  }

  /** A module applies only where the handler does. */
  lemma RunNeverApplies(labels: seq<SystemLabel>, views: seq<View<AnyModule>>, j: nat, id: string,
                        states: seq<DualPartRuns.Run>, steps: seq<DualPartRuns.Step>, cuts: seq<nat>)
    requires j <= |labels| < |views| && RunOf(labels, views, j, id, states, steps, cuts)
    requires !AppliesBefore(labels, views, j)
    ensures forall k {:trigger steps[k]} :: 0 <= k < |steps| ==> !steps[k].Apply?
    ensures DualPartRuns.NeverCommits(states, steps)
  {
    hide MadeBy, DualPartRuns.Next, Shows, AppliesAt;
    forall k {:trigger steps[k]} | 0 <= k < |steps| ensures !steps[k].Apply? {
      var i := LabelOf(cuts, j, k);
      assert GroupAt(labels, views, i, id, states, steps, cuts);
      if steps[k].Apply? { MadeByApply(labels[i], views[i], id, states[k].d, steps[k]); }
    }
  }

  lemma MadeByApply(l: SystemLabel, v: View<AnyModule>, id: string, d: DualPart.Dual, s: DualPartRuns.Step)
    requires MadeBy(l, v, id, d, s) && s.Apply?
    ensures AppliesAt(l, v)
  {
  }

  /** What has to hold of a step of the system for a module's committed content to stay recoverable, in terms of the
      module before the event and at the stop: its call that writes, and the restart, are benign. */
  predicate BenignLabel(l: SystemLabel, v: View<AnyModule>, id: string) {
    && (EventOf(l).Some? && Acts(v, EventOf(l).value, id) && id in v.components && v.components[id].updateModule.Dual?
        ==> BenignCall(l.out, EventOf(l).value, v.components[id].updateModule.d))
    && (l.Stops? && id in l.stopped && l.stopped[id].Dual? ==>
          DualPartRuns.Benign(l.stopped[id].d, DualPartRuns.Restart(l.boots, RestartIo(l, l.stopped[id].d))))
  }

  predicate BenignCall(out: Outside, event: Event, d: DualPart.Dual) {
    match event
    case Update => DualPartRuns.Benign(d, DualPartRuns.Update(out.dual(d)))
    case Apply => DualPartRuns.Benign(d, DualPartRuns.Apply(out.dual(d)))
    case _ => true
  }

  predicate BenignBefore(labels: seq<SystemLabel>, views: seq<View<AnyModule>>, j: nat, id: string)
    requires j <= |labels| < |views|
  {
    forall i :: 0 <= i < j ==> BenignLabel(labels[i], views[i], id)
  }

  lemma RunIsBenign(labels: seq<SystemLabel>, views: seq<View<AnyModule>>, j: nat, id: string,
                    states: seq<DualPartRuns.Run>, steps: seq<DualPartRuns.Step>, cuts: seq<nat>)
    requires j <= |labels| < |views| && RunOf(labels, views, j, id, states, steps, cuts)
    requires BenignBefore(labels, views, j, id)
    ensures DualPartRuns.AllBenign(states, steps)
  {
    hide MadeBy, Asks, BenignLabel, DualPartRuns.Benign;
    forall k {:trigger steps[k]} | 0 <= k < |steps| ensures DualPartRuns.Benign(states[k].d, steps[k]) {
      var i := LabelOf(cuts, j, k);
      assert GroupAt(labels, views, i, id, states, steps, cuts) && ShownAt(views, i, id, states, cuts);
      assert MadeBy(labels[i], views[i], id, states[k].d, steps[k]) && BenignLabel(labels[i], views[i], id);
      if k == cuts[i] {
        FirstIsBenign(labels[i], views[i], id, states[k].d, steps[k]);
      } else {
        assert MadeBy(labels[i], views[i], id, states[k - 1].d, steps[k - 1]);
        LaterIsBenign(labels[i], views[i], id, states, steps, k);
      }
    }
  }

  lemma FirstIsBenign(l: SystemLabel, v: View<AnyModule>, id: string, d: DualPart.Dual, s: DualPartRuns.Step)
    requires MadeBy(l, v, id, d, s) && BenignLabel(l, v, id) && Shows(v, id, d)
    ensures DualPartRuns.Benign(d, s)
  {
    hide RestartIo, Enabled, DualPartRuns.ReadsRecord;
  }

  /** After a request for a reboot there is nothing left to write. */
  lemma LaterIsBenign(l: SystemLabel, v: View<AnyModule>, id: string, states: seq<DualPartRuns.Run>,
                      steps: seq<DualPartRuns.Step>, k: nat)
    requires DualPartRuns.Trace(states, steps) && 0 < k < |steps| && BenignLabel(l, v, id)
    requires MadeBy(l, v, id, states[k].d, steps[k]) && MadeBy(l, v, id, states[k - 1].d, steps[k - 1])
    requires !steps[k - 1].Restart? && (!steps[k].Restart? ==> Asks(states, steps, k - 1))
    ensures DualPartRuns.Benign(states[k].d, steps[k])
  {
    hide RestartIo, Acts, DualPartRuns.ReadsRecord;
    assert states[k] == DualPartRuns.Next(states[k - 1], steps[k - 1]);
  }

  // ---------------------------------------------------------------- what the system guarantees

  /** In every run that does no harm: whenever the handler is idle both slots of every dual-partition component hold the
      committed content of the module's run, which starts with what they held at the start and changes only where an
      Apply is under way. */
  lemma IdleMeansCommitted(semver: Precedence, labels: seq<SystemLabel>, views: seq<View<AnyModule>>, j: nat,
                           id: string, r: DualPartRuns.Run)
    returns (states: seq<DualPartRuns.Run>, steps: seq<DualPartRuns.Step>, cuts: seq<nat>)
    requires SystemRun(semver, labels, views) && AllCareful(labels) && SystemInvariant(views[0]) && j < |views|
    requires Shows(views[0], id, r.d) && DualPartRuns.Settled(r)
    ensures RunOf(labels, views, j, id, states, steps, cuts) && states[0] == r && DualPartRuns.AllSucceed(states, steps)
    ensures DualPartRuns.Settled(Latest(states))
    ensures views[j].fsm == StateIdle ==>
              Latest(states).d.contents == [Latest(states).committed, Latest(states).committed]
    ensures !AppliesBefore(labels, views, j) ==> Latest(states).committed == r.committed
  {
    hide SystemStep, Group, AllCareful, AppliesBefore, DualPartRuns.Settled;
    states, steps, cuts := RunOfModule(semver, labels, views, j, id, r);
    RunEnds(labels, views, j, id, states, steps, cuts);
    RunSucceeds(labels, views, j, id, states, steps, cuts);
    var now := Latest(states);
    DualPartRuns.SettledAlways(states, steps, |steps|);
    SystemInvariantAlways(semver, labels, views, j);
    if views[j].fsm == StateIdle {
      NotUpdatedWhenIdle(views[j], id);
      DualPartRuns.NotUpdatedIsCommitted(now, 0);
      DualPartRuns.NotUpdatedIsCommitted(now, 1);
    }
    if !AppliesBefore(labels, views, j) {
      RunNeverApplies(labels, views, j, id, states, steps, cuts);
      DualPartRuns.CommittedOnlyByApply(states, steps, |steps|);
    }
  }

  lemma NotUpdatedWhenIdle(v: View<AnyModule>, id: string)
    requires SystemInvariant(v) && v.fsm == StateIdle && id in v.components
    ensures !IsUpdated(v.components[id].updateModule)
  {
  }

  /** In every run, whatever fails and tears, as long as no Update or Apply spoils the slot with the only good content
      and no stop loses the record of a written slot: a Revert event whose call of the module does not fail leaves the
      committed content in both slots, which is that of the start until an Apply is under way. */
  lemma RevertRestoresAlways(semver: Precedence, labels: seq<SystemLabel>, views: seq<View<AnyModule>>, j: nat,
                             id: string, r: DualPartRuns.Run)
    returns (states: seq<DualPartRuns.Run>, steps: seq<DualPartRuns.Step>, cuts: seq<nat>)
    requires SystemRun(semver, labels, views) && Invariant(views[0]) && j < |labels|
    requires Shows(views[0], id, r.d) && DualPartRuns.Rollbackable(r) && BenignBefore(labels, views, j, id)
    requires labels[j].Runs? && labels[j].event == Revert && views[j].fsm != StateIdle && id in views[j].state.statuses
    ensures RunOf(labels, views, j, id, states, steps, cuts) && states[0] == r && DualPartRuns.AllBenign(states, steps)
    ensures !AppliesBefore(labels, views, j) ==> Latest(states).committed == r.committed
    ensures var d := Latest(states).d;
      !DualPart.Revert(d, labels[j].out.dual(d)).1.Failed? ==> Restored(views[j + 1], id, Latest(states).committed)
  {
    hide SystemStep, Group, Invariant, AppliesBefore, BenignBefore, DualPartRuns.Rollbackable;
    states, steps, cuts := RunOfModule(semver, labels, views, j, id, r);
    RunEnds(labels, views, j, id, states, steps, cuts);
    RunIsBenign(labels, views, j, id, states, steps, cuts);
    if !AppliesBefore(labels, views, j) {
      RunNeverApplies(labels, views, j, id, states, steps, cuts);
      DualPartRuns.CommittedOnlyByApply(states, steps, |steps|);
    }
    var d := Latest(states).d;
    if !DualPart.Revert(d, labels[j].out.dual(d)).1.Failed? {
      HandlerInvariant(semver, labels, views, j);
      RevertRestoresAfter(semver, labels, views, j, id, states, steps);
    }
  }

  predicate Restored(v: View<AnyModule>, id: string, content: DualPart.Image) {
    && id in v.components && v.components[id].updateModule.Dual?
    && v.components[id].updateModule.d.contents == [content, content]
  }

  /** The same of any benign run of the module that leads to what the handler has before the Revert. */
  lemma RevertRestoresAfter(semver: Precedence, labels: seq<SystemLabel>, views: seq<View<AnyModule>>, j: nat,
                            id: string, states: seq<DualPartRuns.Run>, steps: seq<DualPartRuns.Step>)
    requires SystemRun(semver, labels, views) && j < |labels| && Invariant(views[j])
    requires DualPartRuns.Trace(states, steps) && Shows(views[j], id, Latest(states).d)
    requires DualPartRuns.Rollbackable(states[0]) && DualPartRuns.AllBenign(states, steps)
    requires labels[j].Runs? && labels[j].event == Revert && views[j].fsm != StateIdle && id in views[j].state.statuses
    requires !DualPart.Revert(Latest(states).d, labels[j].out.dual(Latest(states).d)).1.Failed?
    ensures Restored(views[j + 1], id, Latest(states).committed)
  {
    hide SystemStep, Invariant, DualPartRuns.Rollbackable;
    var d := Latest(states).d;
    DualPartRuns.RunStaysRollbackable(states, steps, |steps|);
    DualPartRuns.RevertCopies(Latest(states), labels[j].out.dual(d));
    RevertOnce(semver, labels, views, j, id, d);
  }

  /** A Revert that does not fail leaves the module idle with the slots as it left them, also when it asks for a reboot,
      which is followed by another Revert that has nothing to do. */
  lemma RevertOnce(semver: Precedence, labels: seq<SystemLabel>, views: seq<View<AnyModule>>, j: nat, id: string,
                   d: DualPart.Dual)
    requires SystemRun(semver, labels, views) && j < |labels| && Invariant(views[j])
    requires labels[j].Runs? && labels[j].event == Revert && views[j].fsm != StateIdle && id in views[j].state.statuses
    requires views[j].components[id].updateModule == Dual(d) && !DualPart.Revert(d, labels[j].out.dual(d)).1.Failed?
    ensures id in views[j + 1].components && views[j + 1].components[id].updateModule.Dual?
    ensures views[j + 1].components[id].updateModule.d.contents == DualPart.Revert(d, labels[j].out.dual(d)).0.contents
  {
    assert SystemStep(semver, labels[j], views[j], views[j + 1]);
    hide OperationEvent, Invariant;
    RevertedBy(labels[j].out, labels[j].saveOk, views[j], views[j + 1], id, d);
  }

  lemma RevertedBy(out: Outside, saveOk: bool, v: View<AnyModule>, v': View<AnyModule>, id: string, d: DualPart.Dual)
    requires OperationEvent(EnvOf(out), RevertCalls(EnvOf(out)), StateIdle, false, saveOk, v, v') && Invariant(v)
    requires id in v.state.statuses && v.components[id].updateModule == Dual(d) &&
             !DualPart.Revert(d, out.dual(d)).1.Failed?
    ensures id in v'.components && v'.components[id].updateModule == Dual(DualPart.Revert(d, out.dual(d)).0)
  {
    var calls, reverted := RevertCalls(EnvOf(out)), DualPart.Revert(d, out.dual(d)).0;
    RevertsTo(out, id, v.state.statuses[id].version, d);
    hide OperationEvent, Operation, Reached, RevertCalls, DualPart.Revert;
    var v1, err := InsideEvent(EnvOf(out), calls, StateIdle, false, saveOk, v, v');
    var begun := Entering(v, StateIdle);
    var e := OperationCalls(calls, begun, v1, err, id);
    ReachedFrom(calls, id, Entries(begun)[id], e, m => m == Dual(reverted));
  }

  /** Once reverted, a module stays as it is. */
  lemma RevertsTo(out: Outside, id: string, version: string, d: DualPart.Dual)
    requires !DualPart.Revert(d, out.dual(d)).1.Failed?
    ensures var calls, reverted := RevertCalls(EnvOf(out)), Dual(DualPart.Revert(d, out.dual(d)).0);
      && (forall made :: calls.operate(id, version, made, Dual(d)).next == reverted)
      && (forall made :: calls.operate(id, version, made, reverted).next == reverted)
      && (forall m :: calls.reboot(m).next == m)
  {
  }

  /** In every run, whatever fails: whenever an Update event settles in updated, a dual-partition component of the
      transaction runs from the slot it was updated in, with the requested version and no boot error, unless slot 0 was
      updated and the machine runs from an entry that is none of the module's. */
  lemma UpdatedRunsAlways(semver: Precedence, labels: seq<SystemLabel>, views: seq<View<AnyModule>>, i: nat, id: string,
                          d0: DualPart.Dual)
    requires SystemRun(semver, labels, views) && Invariant(views[0]) && i < |labels|
    requires id in views[0].components && views[0].components[id].updateModule == Dual(d0) && DualPartRuns.Known(d0)
    requires labels[i].Runs? && labels[i].event == Update && views[i].fsm == StatePrepared &&
             views[i + 1].fsm == StateUpdated
    requires id in views[i].state.statuses
    ensures id in views[i + 1].components && views[i + 1].components[id].updateModule.Dual?
    ensures var d := views[i + 1].components[id].updateModule.d;
      && d.state.state == DualPart.Updated && d.bootErr.None? && d.version == views[i].state.statuses[id].version
      && (DualPartRuns.RunsUpdate(d) <==> !DualPartRuns.Mistaken(d))
  {
    hide Invariant, EventStep, DualPartRuns.Known, DualPartRuns.RunsUpdate, DualPartRuns.Mistaken;
    assert SystemStep(semver, labels[i], views[i], views[i + 1]);
    HandlerInvariant(semver, labels, views, i);
    var d := ModuleKnown(semver, labels, views, i, id, d0);
    var d' := ModuleKnown(semver, labels, views, i + 1, id, d0);
    UpdatedRunsTheUpdate(labels[i].out, semver, labels[i].saveOk, views[i], views[i + 1], id);
  }

  lemma ModuleKnown(semver: Precedence, labels: seq<SystemLabel>, views: seq<View<AnyModule>>, i: nat, id: string,
                    d0: DualPart.Dual)
    returns (d: DualPart.Dual)
    requires SystemRun(semver, labels, views) && Invariant(views[0]) && i < |views|
    requires Shows(views[0], id, d0) && DualPartRuns.Known(d0)
    ensures Shows(views[i], id, d) && DualPartRuns.Known(d)
  {
    hide SystemStep, Invariant, DualPartRuns.Known;
    var r := DualPartRuns.Run(d0, d0.contents[0], d0.contents[0], {});
    var states, steps, cuts := RunOfModule(semver, labels, views, i, id, r);
    RunEnds(labels, views, i, id, states, steps, cuts);
    d := Latest(states).d;
    hide RunOf, DualPartRuns.Trace;
    DualPartRuns.PendingSlotRuns(states, steps, |steps|, DualPartRuns.COPIED);
  }

  /** The module's run may begin here, with what is in the slots as the committed content. */
  predicate SettledAtStart(d: DualPart.Dual) {
    DualPartRuns.Settled(DualPartRuns.Run(d, d.contents[0], d.contents[0], {}))
  }

  /** A first start: nothing is stored, and every module is created and initialised. */
  lemma FirstSystemStart(l: SystemLabel, v: View<AnyModule>)
    requires l.Stops? && Started(EnvOf(l.next), NEW_STATE, v) && l.stopped.Keys == v.components.Keys
    requires forall id :: id in v.components ==>
               && Created(l, l.stopped[id]).Some? && (l.stopped[id].Dual? ==> l.stopped[id].d.stored.None?)
               && v.components[id].updateModule == InitOf(l.next, Created(l, l.stopped[id]).value).next
    ensures SystemInvariant(v)
    ensures forall id :: id in v.components && l.stopped[id].Dual? && DualPartRuns.SlotsEqual(l.stopped[id].d) ==>
              v.components[id].updateModule.Dual? && SettledAtStart(v.components[id].updateModule.d)
  {
    hide Created, InitOf, SettledAtStart;
    forall id | id in v.components
      ensures CoherentModule(v.components[id].updateModule) && KnownModule(v.components[id].updateModule)
      ensures !IsUpdated(v.components[id].updateModule)
      ensures l.stopped[id].Dual? && DualPartRuns.SlotsEqual(l.stopped[id].d) ==>
                v.components[id].updateModule.Dual? && SettledAtStart(v.components[id].updateModule.d)
    {
      if l.stopped[id].Dual? {
        NewModule(l, l.stopped[id].d);
      } else {
        OverRestarts(l, l.stopped[id]);
      }
    }
  }

  lemma NewModule(l: SystemLabel, d: DualPart.Dual)
    requires l.Stops? && Created(l, Dual(d)).Some? && d.stored.None?
    ensures var m := InitOf(l.next, Created(l, Dual(d)).value).next;
      && CoherentModule(m) && KnownModule(m) && !IsUpdated(m)
      && (DualPartRuns.SlotsEqual(d) ==> m.Dual? && SettledAtStart(m.d))
  {
    InitIsRestart(l, d);
    DualPartRuns.AfterRestart(d, l.boots, RestartIo(l, d));
    hide DualPartRuns.Restarted, DualPartRuns.Starts, InitOf, Created, RestartIo;
  }

  /** The handler objects themselves: an update asks for its reboot, the process stops, the new slot does not come up
      and the old one does. A new handler is created over what is stored, and StartUpdate and RevertUpdate are
      called. */
  method RollBackAfterStop(h: Handler<AnyModule>, r: DualPartRuns.Run, l: SystemLabel, types: map<string, string>,
                           semver: Precedence, saveOk: bool, out2: Outside, id: string) returns (h2: Handler<AnyModule>)
    requires h.Valid() && Invariant(h.Now()) && h.fsm == StatePrepared && id in h.state.statuses
    requires h.components[id].updateModule == Dual(r.d) && types.Keys == h.components.Keys
    requires DualPartRuns.Settled(r) && r.d.state.state == DualPart.Prepared && DualPartRuns.RunsMain(r.d)
    requires l.Stops? && l.stopped.Keys == h.components.Keys && forall i :: i in l.stopped ==>
             Created(l, l.stopped[i]).Some?
    requires var update := DualPartRuns.Update(l.out.dual(r.d));
      DualPartRuns.Result(r.d, update) == RebootRequired && l.stopped[id] == Dual(DualPartRuns.NextDual(r.d, update))
    requires l.boots != [] && (|l.boots| > 1 || r.d.items[DualPart.Other(r.d.currentPartition)] !in l.boots[0])
    requires r.d.items[r.d.currentPartition] in l.boots[|l.boots| - 1]
    requires RestartIo(l, l.stopped[id].d).loadOk
    requires var d := DualPartRuns.Restarted(l.stopped[id].d, l.boots, RestartIo(l, l.stopped[id].d));
      !DualPart.Revert(d, out2.dual(d)).1.Failed?
    ensures h2.Valid() && h2.fsm == StateIdle && id in h2.components && h2.components[id].updateModule.Dual?
    ensures h2.components[id].updateModule.d.contents == [r.committed, r.committed]
  {
    ghost var update := DualPartRuns.Update(l.out.dual(r.d));
    ghost var d, io := l.stopped[id].d, RestartIo(l, l.stopped[id].d);
    InitIsRestart(l, d);
    DualPartRuns.FailedTrialFallsBack(r, l.out.dual(r.d), l.boots, io);
    assert DualPartRuns.Next(r, update).d == d && DualPartRuns.Next(r, update).committed == r.committed;
    hide EventStep, RanksDrop, Asking, RestartIo, DualPart.Revert, DualPartRuns.Restarted, DualPartRuns.Starts,
        DualPartRuns.NotTheNewSlot,
         DualPartRuns.TrialPending, DualPartRuns.Settled, DualPartRuns.RunsMain, DualPartRuns.NextDual, Invariant;
    h2 := Recreated(h, l, types, semver);
    ghost var v := h2.Now();
    ghost var v1 := UpdateThenRevert(h2, l.next, semver, saveOk, out2);
    FailedBootIsRolledBack(DualPartRuns.Next(r, update), l.boots, io, l.next, semver, saveOk, out2, v, v1, h2.Now(),
        id);
  }

  /** Two rounds are enough for either event. */
  method UpdateThenRevert(h: Handler<AnyModule>, out: Outside, semver: Precedence, saveOk: bool, out2: Outside)
    returns (ghost v1: View<AnyModule>)
    requires h.Valid()
    modifies h
    ensures h.Valid()
    ensures EventStep(EnvOf(out), semver, Update, saveOk, old(h.Now()), v1)
    ensures EventStep(EnvOf(out2), semver, Revert, true, v1, h.Now())
  {
    hide EventStep, RanksDrop, Asking;
    ghost var v := h.Now();
    var finished := h.StartUpdate(EnvOf(out), semver, saveOk, 2);
    v1 := h.Now();
    UpdateRanksDrop(out);
    NotAsking(UpdateCalls(EnvOf(out)), Entering(v, StateUpdated), v1, m => UpdateRank(m), 1);
    finished := h.RevertUpdate(EnvOf(out2), semver, true, 2);
    RevertRanksDrop(out2);
    NotAsking(RevertCalls(EnvOf(out2)), Entering(v1, StateIdle), h.Now(), m => RevertRank(m), 1);
  }

  /** A new handler over what the one before it stored, and over the modules created from what is left of its. */
  method Recreated(h: Handler<AnyModule>, l: SystemLabel, types: map<string, string>, ghost semver: Precedence)
    returns (h2: Handler<AnyModule>)
    requires Invariant(h.Now()) && h.fsm != StateFailed && types.Keys == h.components.Keys
    requires l.Stops? && l.stopped.Keys == h.components.Keys && forall i :: i in l.stopped ==>
             Created(l, l.stopped[i]).Some?
    ensures fresh(h2) && h2.Valid() && Invariant(h2.Now()) && h2.fsm == h.fsm && h2.state == h.state
    ensures h2.components.Keys == h.components.Keys
    ensures forall i :: i in l.stopped ==>
              h2.components[i].updateModule == InitOf(l.next, Created(l, l.stopped[i]).value).next
  {
    hide Created, InitOf, ReportedVersion;
    var components := map i | i in h.components :: h.components[i].(updateModule := Created(l, l.stopped[i]).value);
    h2 := new Handler(EnvOf(l.next), components, types, Some(h.saved), h.versions);
    assert RestartStep(EnvOf(l.next), h.Now(), h2.Now());
    StepKeepsInvariant(semver, Restarts(EnvOf(l.next)), h.Now(), h2.Now());
  }
}
