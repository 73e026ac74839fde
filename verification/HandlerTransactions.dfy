/** What the update handler guarantees about a whole transaction: nothing unverified is applied, a failure leads to
    failed, versions do not go back, and the reported version stays the one the transaction started from. */
module HandlerTransactions {
  import opened Prelude
  import opened ComponentOperations
  import opened OperationLoop
  import opened HandlerSpec
  import opened HandlerRuns

  // ---------------------------------------------------------------- the transition table

  function Target(event: Event): UpdateState {
    match event
    case Prepare(_) => StatePrepared
    case Update => StateUpdated
    case Apply => StateIdle
    case Revert => StateIdle
  }

  /** The operation inside an event, and what settling makes of its outcome. */
  lemma InsideEvent<M(!new)>(env: Env<M>, calls: Calls<M>, next: UpdateState, fails: bool, saveOk: bool, v: View<M>,
                             v': View<M>)
    returns (v1: View<M>, err: Option<Error>)
    requires OperationEvent(env, calls, next, fails, saveOk, v, v')
    ensures Operation(calls, fails, Entering(v, next), v1, err) && Kept(Entering(v, next), v1)
    ensures Settles(v1, err, next, fails, saveOk, v, v')
  {
    v1, err :| Operation(calls, fails, Entering(v, next), v1, err) &&
        v' == Settle(env, Recorded(v1, err, fails), saveOk);
    OperationKeeps(calls, fails, Entering(v, next), v1, err);
    SettleSettles(env, v1, err, next, fails, saveOk, v);
  }

  lemma SettleSettles<M(!new)>(env: Env<M>, v1: View<M>, err: Option<Error>, next: UpdateState, fails: bool,
                               saveOk: bool, v: View<M>)
    requires v1.fsm == next && v1.installed == v.installed && v1.saved == v.saved
    ensures Settles(v1, err, next, fails, saveOk, v, Settle(env, Recorded(v1, err, fails), saveOk))
  {
  }

  /** From the outcome of an event's operation on v to the settled view v'. */
  ghost predicate Settles<M>(v1: View<M>, err: Option<Error>, next: UpdateState, fails: bool, saveOk: bool, v: View<M>,
                             v': View<M>) {
    && v'.components == v1.components && v'.versions == v1.versions
    && v'.fsm == (if !saveOk || (fails && err.Some?) then StateFailed else next)
    && v'.state.updateState == v'.fsm
    && (next != StateIdle || (fails && err.Some?) ==>
          v'.state.statuses == v1.state.statuses && v'.installed == v.installed)
    && (next == StateIdle && !(fails && err.Some?) ==> v'.state.statuses == OnlyErrors(v1.state.statuses))
    && v'.state.currentVersions == v1.state.currentVersions
    && v'.saved == (if saveOk then v'.state else v.saved)
  }

  /** An event changes at most the version reported for an installed component. */
  lemma StatusesStay<M(!new)>(env: Env<M>, calls: Calls<M>, next: UpdateState, fails: bool, saveOk: bool, v: View<M>,
                              v': View<M>, id: string)
    requires OperationEvent(env, calls, next, fails, saveOk, v, v') && id in v.installed
    ensures id in v'.installed && v'.installed[id].status == v.installed[id].status
  {
    hide Operation;
    var v1, err :| Operation(calls, fails, Entering(v, next), v1, err) &&
        v' == Settle(env, Recorded(v1, err, fails), saveOk);
    OperationKeeps(calls, fails, Entering(v, next), v1, err);
  }

  /** A request is refused as a whole, or its operation runs on the accepted components. */
  lemma InsidePrepare<M(!new)>(env: Env<M>, semver: Precedence, infos: seq<UpdateInfo>, saveOk: bool, v: View<M>,
                               v': View<M>)
    returns (a: Acceptance, v0: View<M>, v1: View<M>, err: Option<Error>)
    requires PrepareEvent(env, semver, infos, saveOk, v, v')
    ensures a == Accepted(v.installed, infos) && AcceptanceOK(v.installed, a)
    ensures v0 == Requested(Entering(v, StatePrepared), a)
    ensures infos == [] || a.err.Some? ==> v1 == v0 && err.Some?
    ensures infos != [] && a.err.None? ==> Operation(PrepareCalls(env, semver, a.infos), true, v0, v1, err)
    ensures Kept(v0, v1) && Settles(v1, err, StatePrepared, true, saveOk, v, v')
  {
    hide Operation;
    AcceptedAreInstalled(v.installed, infos);
    a := Accepted(v.installed, infos);
    v0 := Requested(Entering(v, StatePrepared), a);
    if infos == [] || a.err.Some? {
      v1, err := v0, if infos == [] then Some("prepare component list is empty") else a.err;
    } else {
      v1, err :| Operation(PrepareCalls(env, semver, a.infos), true, v0, v1, err) &&
          v' == Settle(env, Recorded(v1, err, true), saveOk);
      OperationKeeps(PrepareCalls(env, semver, a.infos), true, v0, v1, err);
    }
    SettleSettles(env, v1, err, StatePrepared, true, saveOk, v);
  }

  /** An event leads to its target or to failed; apply and revert reach idle whatever their modules answer, unless the
      record cannot be saved. So updated is left only by apply and revert, and failed only by revert. */
  lemma EventReachesTarget<M(!new)>(env: Env<M>, semver: Precedence, event: Event, saveOk: bool, v: View<M>,
                                    v': View<M>)
    requires EventStep(env, semver, event, saveOk, v, v')
    ensures !Enabled(v.fsm, event) ==> v' == v
    ensures Enabled(v.fsm, event) ==> v'.fsm == StateFailed || (saveOk && v'.fsm == Target(event))
    ensures Enabled(v.fsm, event) && (event.Apply? || event.Revert?) ==>
            v'.fsm == if saveOk then StateIdle else StateFailed
  {
    if Enabled(v.fsm, event) {
      match event
      case Prepare(infos) => var _, _, _, _ := InsidePrepare(env, semver, infos, saveOk, v, v');
      case Update => var _, _ := InsideEvent(env, UpdateCalls(env), StateUpdated, true, saveOk, v, v');
      case Apply => var _, _ := InsideEvent(env, ApplyCalls(env), StateIdle, false, saveOk, v, v');
      case Revert => var _, _ := InsideEvent(env, RevertCalls(env), StateIdle, false, saveOk, v, v');
    }
  }

  // ---------------------------------------------------------------- one pending component in an operation

  /** Pending components are configured. */
  predicate PendingConfigured<M>(v: View<M>) {
    v.state.statuses.Keys <= v.components.Keys
  }

  /** An operation that stops on errors and had none: the calls for a component, from the module as it was, end with a
      successful operation that left it as it is. */
  lemma OperationDone<M(!new)>(calls: Calls<M>, v: View<M>, v': View<M>, id: string) returns (after: Entry<M>)
    requires Operation(calls, true, v, v', None) && PendingConfigured(v) && id in v.state.statuses
    ensures id in v'.components && after.component == Some(v'.components[id])
    ensures CalledLast(calls, id, Entries(v)[id], after)
  {
    hide Outcome, Reached;
    var entries: map<string, Entry<M>> :| Outcome(calls, true, Entries(v), entries, None) && v' == Absorb(v, entries);
    AllDone(calls, Entries(v), entries, id);
    after := entries[id];
  }

  /** The operation and reboots were called for a component in turn, each in the state the call before it left, and the
      last call was the operation and succeeded. */
  ghost predicate CalledLast<M(!new)>(calls: Calls<M>, id: string, before: Entry<M>, after: Entry<M>) {
    && before.component.Some? && after.component.Some? && after.history != [] && Reached(calls, id, before, after)
    && var n := |after.history| - 1;
       var last := after.history[n];
       && last.action == Operate && last.before == ModuleAt(before, after.history, n)
       && last.answer == calls.operate(id, before.status.version, n, last.before)
       && last.answer.result == Done && last.answer.next == after.component.value.updateModule
  }

  /** A component, and its version in storage, as calls may have left them: as they were, or of a pending component and
      reached from what they were. */
  ghost predicate Touched<M(!new)>(calls: Calls<M>, v: View<M>, id: string, component: Component<M>,
                                   stored: Option<string>)
    requires id in v.components
  {
    || (component == v.components[id] && stored == Lookup(v.versions, id))
    || (id in v.state.statuses && exists e: Entry<M> :: Leads(calls, v, id, e, component, stored))
  }

  ghost predicate Leads<M(!new)>(calls: Calls<M>, v: View<M>, id: string, e: Entry<M>, component: Component<M>,
                                 stored: Option<string>)
    requires id in v.components && id in v.state.statuses
  {
    e.component == Some(component) && e.stored == stored && Reached(calls, id, Entries(v)[id], e)
  }

  lemma OperationTouches<M(!new)>(calls: Calls<M>, stopOnError: bool, v: View<M>, v': View<M>, err: Option<Error>,
                                  id: string)
    requires Operation(calls, stopOnError, v, v', err) && PendingConfigured(v) && id in v.components
    ensures id in v'.components && Touched(calls, v, id, v'.components[id], Lookup(v'.versions, id))
  {
    hide Outcome, Reached;
    var entries: map<string, Entry<M>> :| Outcome(calls, stopOnError, Entries(v), entries, err) &&
        v' == Absorb(v, entries);
    OutcomeKeeps(calls, stopOnError, Entries(v), entries, err);
    if id in v.state.statuses {
      OutcomeReaches(calls, stopOnError, Entries(v), entries, err, id);
      assert entries[id] != Entries(v)[id] ==>
          Leads(calls, v, id, entries[id], v'.components[id], Lookup(v'.versions, id));
    }
  }

  lemma OutcomeReaches<M(!new)>(calls: Calls<M>, stopOnError: bool, entries: map<string, Entry<M>>,
                                entries': map<string, Entry<M>>, err: Option<Error>, id: string)
    requires Outcome(calls, stopOnError, entries, entries', err) && Configured(entries, id)
    ensures id in entries' && (entries'[id] == entries[id] ||
            (entries'[id].component.Some? && Reached(calls, id, entries[id], entries'[id])))
  {
  }

  /** Without stopping on errors every pending component is called. */
  lemma OperationCalls<M(!new)>(calls: Calls<M>, v: View<M>, v': View<M>, err: Option<Error>, id: string)
    returns (e: Entry<M>)
    requires Operation(calls, false, v, v', err) && PendingConfigured(v) && id in v.state.statuses
    ensures id in v'.components && e.component == Some(v'.components[id])
    ensures Reached(calls, id, Entries(v)[id], e) && e.history != []
  {
    hide Outcome;
    var entries: map<string, Entry<M>> :| Outcome(calls, false, Entries(v), entries, err) && v' == Absorb(v, entries);
    AllCalled(calls, Entries(v), entries, err, id);
    e := entries[id];
  }

  /** ... and so did its first one. */
  lemma OperationBegan<M(!new)>(calls: Calls<M>, v: View<M>, v': View<M>, id: string)
    requires Operation(calls, true, v, v', None) && PendingConfigured(v) && id in v.state.statuses
    ensures !calls.operate(id, v.state.statuses[id].version, 0, v.components[id].updateModule).result.Failed?
  {
    hide Outcome;
    var entries: map<string, Entry<M>> :| Outcome(calls, true, Entries(v), entries, None) && v' == Absorb(v, entries);
    FirstCallSucceeded(calls, Entries(v), entries, id);
  }

  /** An operation that does not stop on errors reaches every component. */
  lemma OperationReachesAll<M(!new)>(calls: Calls<M>, v: View<M>, v': View<M>, err: Option<Error>, id: string)
    requires Operation(calls, false, v, v', err) && PendingConfigured(v) && id in v.state.statuses
    ensures var first := calls.operate(id, v.state.statuses[id].version, 0, v.components[id].updateModule);
      id in v'.components && (first.result != RebootRequired ==> v'.components[id].updateModule == first.next)
  {
    hide Outcome;
    var entries: map<string, Entry<M>> :| Outcome(calls, false, Entries(v), entries, err) && v' == Absorb(v, entries);
    AllCalled(calls, Entries(v), entries, err, id);
    FirstCall(calls, id, Entries(v)[id], entries[id]);
  }

  lemma FirstCallSucceeded<M(!new)>(calls: Calls<M>, entries: map<string, Entry<M>>, entries': map<string, Entry<M>>,
                                    id: string)
    requires Outcome(calls, true, entries, entries', None) && Configured(entries, id) && entries[id].history == []
    ensures !calls.operate(id, entries[id].status.version, 0, entries[id].component.value.updateModule).result.Failed?
  {
    assert !AnyMissing(entries);
    assert Complete(entries'[id]) && Reached(calls, id, entries[id], entries'[id]);
    FirstCall(calls, id, entries[id], entries'[id]);
    assert !CallFailed(entries'[id]) by {
      assert Configured(entries', id);
    }
  }

  ghost predicate NeverStores<M(!new)>(calls: Calls<M>) {
    (forall id, version, made, m :: !calls.operate(id, version, made, m).stores) &&
        (forall m :: !calls.reboot(m).stores)
  }

  lemma EntryStoresNothing<M(!new)>(calls: Calls<M>, id: string, e0: Entry<M>, e: Entry<M>)
    requires NeverStores(calls) && e0.component.Some? && Reached(calls, id, e0, e)
    ensures e.stored == e0.stored
  {
    forall k | 0 <= k < |e.history| ensures !e.history[k].answer.stores {
      assert Link(calls, id, e0, e.history, k);
    }
  }

  lemma OutcomeStoresNothing<M(!new)>(calls: Calls<M>, stopOnError: bool, entries: map<string, Entry<M>>,
                                      entries': map<string, Entry<M>>, err: Option<Error>)
    requires NeverStores(calls) && Outcome(calls, stopOnError, entries, entries', err)
    ensures entries'.Keys == entries.Keys && forall id :: id in entries ==> entries'[id].stored == entries[id].stored
  {
    forall id | id in entries ensures entries'[id].stored == entries[id].stored {
      if !Missing(entries, id) && entries'[id] != entries[id] {
        EntryStoresNothing(calls, id, entries[id], entries'[id]);
      }
    }
  }

  lemma AbsorbStoresNothing<M>(v: View<M>, entries: map<string, Entry<M>>)
    requires entries.Keys == v.state.statuses.Keys && forall id :: id in entries ==>
             entries[id].stored == Lookup(v.versions, id)
    ensures Absorb(v, entries).versions == v.versions
  {
  }

  lemma StoresNothing<M(!new)>(calls: Calls<M>, stopOnError: bool, v: View<M>, v': View<M>, err: Option<Error>)
    requires Operation(calls, stopOnError, v, v', err) && NeverStores(calls)
    ensures v'.versions == v.versions
  {
    hide Outcome;
    var entries: map<string, Entry<M>> :| Outcome(calls, stopOnError, Entries(v), entries, err) &&
        v' == Absorb(v, entries);
    OutcomeStoresNothing(calls, stopOnError, Entries(v), entries, err);
    AbsorbStoresNothing(v, entries);
  }

  // ---------------------------------------------------------------- commit safety

  /** Of the calls this Update event made for the component, starting from the module as it was before, the last was
      Update; it returned without an error and without asking for a reboot, it left the module as it is now, and the
      module reports the requested version. */
  ghost predicate Verified<M(!new)>(env: Env<M>, id: string, before: Entry<M>, after: Entry<M>) {
    && CalledLast(UpdateCalls(env), id, before, after)
    && env.update(after.history[|after.history| - 1].before) == (after.component.value.updateModule, Done)
    && env.version(after.component.value.updateModule) == Ok(before.status.version)
  }

  /** The same for a component of the handler, before and after the event. */
  ghost predicate VerifiedIn<M(!new)>(env: Env<M>, v: View<M>, v': View<M>, id: string) {
    && id in v.state.statuses && id in v'.components
    && exists after: Entry<M> :: after.component == Some(v'.components[id]) && Verified(env, id, Entries(v)[id], after)
  }

  /** Update settles in updated only if every pending component is verified. */
  lemma UpdatedIsVerified<M(!new)>(env: Env<M>, semver: Precedence, saveOk: bool, v: View<M>, v': View<M>)
    requires Invariant(v) && v.fsm == StatePrepared
    requires EventStep(env, semver, Update, saveOk, v, v') && v'.fsm == StateUpdated
    ensures v'.state.statuses.Keys == v.state.statuses.Keys
    ensures forall id :: id in v.state.statuses ==>
              VerifiedIn(env, v, v', id) && v'.state.statuses[id].version == v.state.statuses[id].version
  {
    VerifiedInside(env, saveOk, v, v');
  }

  lemma VerifiedInside<M(!new)>(env: Env<M>, saveOk: bool, v: View<M>, v': View<M>)
    requires PendingConfigured(v) && OperationEvent(env, UpdateCalls(env), StateUpdated, true, saveOk, v, v') &&
             v'.fsm == StateUpdated
    ensures v'.state.statuses.Keys == v.state.statuses.Keys
    ensures forall id :: id in v.state.statuses ==>
              VerifiedIn(env, v, v', id) && v'.state.statuses[id].version == v.state.statuses[id].version
  {
    hide OperationEvent, Operation, Verified;
    var v1, err := InsideEvent(env, UpdateCalls(env), StateUpdated, true, saveOk, v, v');
    forall id | id in v.state.statuses
      ensures VerifiedIn(env, v, v', id)
      ensures v'.state.statuses[id].version == v.state.statuses[id].version
    {
      var after := OperationDone(UpdateCalls(env), Entering(v, StateUpdated), v1, id);
      assert Entries(Entering(v, StateUpdated))[id] == Entries(v)[id];
      CalledIsVerified(env, id, Entries(v)[id], after);
    }
  }

  lemma CalledIsVerified<M(!new)>(env: Env<M>, id: string, before: Entry<M>, after: Entry<M>)
    requires CalledLast(UpdateCalls(env), id, before, after)
    ensures Verified(env, id, before, after)
  {
    hide Reached;
    var last := after.history[|after.history| - 1];
    UpdateOperates(env, id, before.status.version, |after.history| - 1, last.before);
  }

  lemma UpdateOperates<M>(env: Env<M>, id: string, version: string, made: nat, m: M)
    ensures UpdateCalls(env).operate(id, version, made, m) == DoUpdate(env, version, m)
  {
  }

  /** The step is an Update event after which every component of the stored transaction is verified. */
  ghost predicate Verifies<M(!new)>(step: Label<M>, v: View<M>, v': View<M>) {
    && step.Happens? && step.event.Update? && v'.fsm == StateUpdated && v'.saved == v'.state
    && v'.state.statuses.Keys == v.state.statuses.Keys
    && forall id :: id in v'.state.statuses ==>
         VerifiedIn(step.env, v, v', id) && v'.state.statuses[id].version == v.state.statuses[id].version
  }

  lemma OnlyVerifyingSavesUpdated<M(!new)>(semver: Precedence, step: Label<M>, v: View<M>, v': View<M>)
    requires Invariant(v) && Step(semver, step, v, v') && v'.saved.updateState == StateUpdated
    ensures v'.saved == v.saved || Verifies(step, v, v')
  {
    match step
    case Restarts(env) =>
    case Happens(env, event, saveOk) =>
      if Enabled(v.fsm, event) {
        hide OperationEvent, PrepareEvent, Operation, VerifiedIn;
        match event
        case Prepare(infos) => PrepareStoresNothing(env, semver, infos, saveOk, v, v');
        case Update =>
          var _, _ := InsideEvent(env, UpdateCalls(env), StateUpdated, true, saveOk, v, v');
          if saveOk { UpdatedIsVerified(env, semver, saveOk, v, v'); }
        case Apply => var _, _ := InsideEvent(env, ApplyCalls(env), StateIdle, false, saveOk, v, v');
        case Revert => var _, _ := InsideEvent(env, RevertCalls(env), StateIdle, false, saveOk, v, v');
      }
  }

  ghost predicate VerifiedAt<M(!new)>(labels: seq<Label<M>>, views: seq<View<M>>, i: nat)
    requires |views| == |labels| + 1 && i < |labels|
  {
    Verifies(labels[i], views[i], views[i + 1])
  }

  lemma VerifiedStepAt<M(!new)>(semver: Precedence, labels: seq<Label<M>>, views: seq<View<M>>, i: nat)
    requires IsRun(semver, labels, views) && i < |labels| && Invariant(views[i]) &&
             views[i + 1].saved.updateState == StateUpdated
    ensures views[i + 1].saved == views[i].saved || VerifiedAt(labels, views, i)
  {
    hide Verifies, Invariant;
    OnlyVerifyingSavesUpdated(semver, labels[i], views[i], views[i + 1]);
  }

  /** In every run, whatever fails and however often the process restarts: the handler is in updated, the only state
      Apply starts from, only with a record that an earlier Update event stored after every component in it was
      verified. */
  lemma {:induction false} OnlyVerifiedIsApplied<M(!new)>(semver: Precedence, labels: seq<Label<M>>,
                      views: seq<View<M>>, j: nat)
    requires IsRun(semver, labels, views) && Invariant(views[0]) && views[0].saved.updateState != StateUpdated
    requires j < |views| && (views[j].fsm == StateUpdated || views[j].saved.updateState == StateUpdated)
    ensures views[j].saved.updateState == StateUpdated &&
            (views[j].fsm == StateUpdated ==> views[j].state == views[j].saved)
    ensures exists i: nat :: i < j && VerifiedAt(labels, views, i) && views[j].saved == views[i + 1].saved
  {
    hide Step, VerifiedAt;
    InvariantAlways(semver, labels, views, j);
    if j > 0 {
      InvariantAlways(semver, labels, views, j - 1);
      VerifiedStepAt(semver, labels, views, j - 1);
      if !VerifiedAt(labels, views, j - 1) {
        OnlyVerifiedIsApplied(semver, labels, views, j - 1);
      }
    }
  }

  /** A pending component whose module answers Update with an error brings the handler to failed. */
  lemma FailedUpdateFails<M(!new)>(env: Env<M>, semver: Precedence, saveOk: bool, v: View<M>, v': View<M>, id: string)
    requires Invariant(v) && v.fsm == StatePrepared && EventStep(env, semver, Update, saveOk, v, v')
    requires id in v.state.statuses && env.update(v.components[id].updateModule).1.Failed?
    ensures v'.fsm == StateFailed
  {
    FailsInside(env, saveOk, v, v', id);
  }

  /** A module that answers Update with an error and stays as it is is not changed by the event, called or not. */
  lemma FailedUpdateKeepsModule<M(!new)>(env: Env<M>, semver: Precedence, saveOk: bool, v: View<M>, v': View<M>,
                                         id: string)
    requires Invariant(v) && v.fsm == StatePrepared && EventStep(env, semver, Update, saveOk, v, v')
    requires id in v.state.statuses && env.update(v.components[id].updateModule).1.Failed?
    requires env.update(v.components[id].updateModule).0 == v.components[id].updateModule
    ensures id in v'.components && v'.components[id].updateModule == v.components[id].updateModule
    ensures v'.state.statuses.Keys == v.state.statuses.Keys
  {
    KeepsInside(env, saveOk, v, v', id);
  }

  lemma KeepsInside<M(!new)>(env: Env<M>, saveOk: bool, v: View<M>, v': View<M>, id: string)
    requires PendingConfigured(v) && OperationEvent(env, UpdateCalls(env), StateUpdated, true, saveOk, v, v')
    requires id in v.state.statuses && env.update(v.components[id].updateModule).1.Failed?
    requires env.update(v.components[id].updateModule).0 == v.components[id].updateModule
    ensures id in v'.components && v'.components[id].updateModule == v.components[id].updateModule
    ensures v'.state.statuses.Keys == v.state.statuses.Keys
  {
    hide OperationEvent, Operation;
    var v1, err := InsideEvent(env, UpdateCalls(env), StateUpdated, true, saveOk, v, v');
    UpdateOperates(env, id, v.state.statuses[id].version, 0, v.components[id].updateModule);
    OperationKeepsModule(UpdateCalls(env), true, Entering(v, StateUpdated), v1, err, id);
  }

  lemma OperationKeepsModule<M(!new)>(calls: Calls<M>, stopOnError: bool, v: View<M>, v': View<M>, err: Option<Error>,
                                      id: string)
    requires Operation(calls, stopOnError, v, v', err) && PendingConfigured(v) && id in v.state.statuses
    requires var first := calls.operate(id, v.state.statuses[id].version, 0, v.components[id].updateModule);
      first.result != RebootRequired && first.next == v.components[id].updateModule
    ensures id in v'.components && v'.components[id].updateModule == v.components[id].updateModule
  {
    hide Outcome;
    var entries: map<string, Entry<M>> :| Outcome(calls, stopOnError, Entries(v), entries, err) &&
        v' == Absorb(v, entries);
    OutcomeKeepsModule(calls, stopOnError, Entries(v), entries, err, id);
  }

  lemma OutcomeKeepsModule<M(!new)>(calls: Calls<M>, stopOnError: bool, entries: map<string, Entry<M>>,
                                    entries': map<string, Entry<M>>, err: Option<Error>, id: string)
    requires Outcome(calls, stopOnError, entries, entries', err) && Configured(entries, id) && entries[id].history == []
    requires var m := entries[id].component.value.updateModule;
      var first := calls.operate(id, entries[id].status.version, 0, m);
      first.result != RebootRequired && first.next == m
    ensures id in entries' && entries'[id].component == entries[id].component
  {
    if entries'[id] != entries[id] && entries'[id].history != [] {
      FirstCall(calls, id, entries[id], entries'[id]);
    }
  }

  lemma FailsInside<M(!new)>(env: Env<M>, saveOk: bool, v: View<M>, v': View<M>, id: string)
    requires PendingConfigured(v) && OperationEvent(env, UpdateCalls(env), StateUpdated, true, saveOk, v, v')
    requires id in v.state.statuses && env.update(v.components[id].updateModule).1.Failed?
    ensures v'.fsm == StateFailed
  {
    hide OperationEvent, Operation;
    var v1, err := InsideEvent(env, UpdateCalls(env), StateUpdated, true, saveOk, v, v');
    UpdateOperates(env, id, v.state.statuses[id].version, 0, v.components[id].updateModule);
    if err.None? {
      OperationBegan(UpdateCalls(env), Entering(v, StateUpdated), v1, id);
    }
  }

  /** Revert calls every pending component, whatever fails; one that asks for no reboot ends as its Revert left it. */
  lemma RevertReachesAll<M(!new)>(env: Env<M>, semver: Precedence, saveOk: bool, v: View<M>, v': View<M>, id: string)
    requires Invariant(v) && v.fsm != StateIdle && EventStep(env, semver, Revert, saveOk, v, v')
    requires id in v.state.statuses && env.revert(v.components[id].updateModule).1 != RebootRequired
    ensures id in v'.components && v'.components[id].updateModule == env.revert(v.components[id].updateModule).0
  {
    RevertsInside(env, saveOk, v, v', id);
  }

  lemma RevertsInside<M(!new)>(env: Env<M>, saveOk: bool, v: View<M>, v': View<M>, id: string)
    requires PendingConfigured(v) && OperationEvent(env, RevertCalls(env), StateIdle, false, saveOk, v, v')
    requires id in v.state.statuses && env.revert(v.components[id].updateModule).1 != RebootRequired
    ensures id in v'.components && v'.components[id].updateModule == env.revert(v.components[id].updateModule).0
  {
    var v1, err := InsideEvent(env, RevertCalls(env), StateIdle, false, saveOk, v, v');
    OperationReachesAll(RevertCalls(env), Entering(v, StateIdle), v1, err, id);
  }

  // ---------------------------------------------------------------- stored versions

  ghost predicate StoresUnlessFailed<M(!new)>(calls: Calls<M>) {
    forall id, version, made, m :: calls.operate(id, version, made, m).result.Failed? ||
        calls.operate(id, version, made, m).stores
  }

  lemma OutcomeStores<M(!new)>(calls: Calls<M>, entries: map<string, Entry<M>>, entries': map<string, Entry<M>>,
                               err: Option<Error>, id: string)
    requires Outcome(calls, false, entries, entries', err) && Configured(entries, id) && StoresUnlessFailed(calls)
    ensures id in entries'
    ensures entries'[id].status.status == InError || entries'[id].stored == Some(entries[id].status.version)
  {
    AllCalled(calls, entries, entries', err, id);
    assert Link(calls, id, entries[id], entries'[id].history, 0);
    var first := entries'[id].history[0];
    assert first.answer.result.Failed? || first.answer.stores;
  }

  lemma OperationStores<M(!new)>(calls: Calls<M>, v: View<M>, v': View<M>, err: Option<Error>, id: string)
    requires Operation(calls, false, v, v', err) && PendingConfigured(v) && id in v.state.statuses &&
             StoresUnlessFailed(calls)
    ensures id in v'.state.statuses
    ensures v'.state.statuses[id].status == InError
         || (id in v'.versions && v'.versions[id] == v.state.statuses[id].version)
  {
    hide Outcome;
    var entries: map<string, Entry<M>> :| Outcome(calls, false, Entries(v), entries, err) && v' == Absorb(v, entries);
    OutcomeStores(calls, Entries(v), entries, err, id);
  }

  lemma ApplyStoresUnlessFailed<M(!new)>(env: Env<M>)
    ensures StoresUnlessFailed(ApplyCalls(env))
  {
  }

  /** A component whose Apply asks for no reboot ends as that Apply left it; it is kept as an error exactly if it was
      one, or its Apply or the storing of its version failed. */
  lemma ApplyOnce<M(!new)>(env: Env<M>, semver: Precedence, saveOk: bool, v: View<M>, v': View<M>, id: string)
    requires Invariant(v) && v.fsm == StateUpdated && EventStep(env, semver, Apply, saveOk, v, v') &&
             id in v.state.statuses
    ensures var (m, result) := env.apply(v.components[id].updateModule);
      result != RebootRequired ==>
        && id in v'.components && v'.components[id].updateModule == m
        && (id in v'.state.statuses <==>
              v.state.statuses[id].status == InError || result.Failed? || env.storeVersion(id, 0).Some?)
  {
    AppliesOnce(env, saveOk, v, v', id);
  }

  lemma AppliesOnce<M(!new)>(env: Env<M>, saveOk: bool, v: View<M>, v': View<M>, id: string)
    requires PendingConfigured(v) && OperationEvent(env, ApplyCalls(env), StateIdle, false, saveOk, v, v') &&
             id in v.state.statuses
    ensures var (m, result) := env.apply(v.components[id].updateModule);
      result != RebootRequired ==>
        && id in v'.components && v'.components[id].updateModule == m
        && (id in v'.state.statuses <==>
              v.state.statuses[id].status == InError || result.Failed? || env.storeVersion(id, 0).Some?)
  {
    hide OperationEvent, Operation;
    var v1, err := InsideEvent(env, ApplyCalls(env), StateIdle, false, saveOk, v, v');
    var m := v.components[id].updateModule;
    ApplyOperates(env, id, v.state.statuses[id].version, m);
    if env.apply(m).1 != RebootRequired {
      OperationReachesAll(ApplyCalls(env), Entering(v, StateIdle), v1, err, id);
      OperationMarks(ApplyCalls(env), Entering(v, StateIdle), v1, err, id);
    }
  }

  lemma ApplyOperates<M(!new)>(env: Env<M>, id: string, version: string, m: M)
    ensures var answer := ApplyCalls(env).operate(id, version, 0, m);
      && answer.next == env.apply(m).0
      && (env.apply(m).1 != RebootRequired ==> answer.result != RebootRequired)
      && (answer.result.Failed? <==> env.apply(m).1.Failed? || env.storeVersion(id, 0).Some?)
  {
  }

  lemma OperationMarks<M(!new)>(calls: Calls<M>, v: View<M>, v': View<M>, err: Option<Error>, id: string)
    requires Operation(calls, false, v, v', err) && PendingConfigured(v) && id in v.state.statuses
    requires calls.operate(id, v.state.statuses[id].version, 0, v.components[id].updateModule).result != RebootRequired
    ensures id in v'.state.statuses
    ensures v'.state.statuses[id].status == InError
       <==> v.state.statuses[id].status == InError
            || calls.operate(id, v.state.statuses[id].version, 0, v.components[id].updateModule).result.Failed?
  {
    hide Outcome;
    var entries: map<string, Entry<M>> :| Outcome(calls, false, Entries(v), entries, err) && v' == Absorb(v, entries);
    AllCalled(calls, Entries(v), entries, err, id);
    FirstCall(calls, id, Entries(v)[id], entries[id]);
    assert entries[id].history[0].answer.result.Failed? ==> CallFailed(entries[id]);
  }

  /** Apply leaves no component behind silently: one that is not kept as an error has its requested version stored. */
  lemma AppliedIsStored<M(!new)>(env: Env<M>, semver: Precedence, saveOk: bool, v: View<M>, v': View<M>, id: string)
    requires Invariant(v) && v.fsm == StateUpdated && EventStep(env, semver, Apply, saveOk, v, v') &&
             id in v.state.statuses
    ensures (id in v'.state.statuses && v'.state.statuses[id].status == InError)
         || (id in v'.versions && v'.versions[id] == v.state.statuses[id].version)
  {
    StoredInside(env, saveOk, v, v', id);
  }

  lemma StoredInside<M(!new)>(env: Env<M>, saveOk: bool, v: View<M>, v': View<M>, id: string)
    requires PendingConfigured(v) && OperationEvent(env, ApplyCalls(env), StateIdle, false, saveOk, v, v') &&
             id in v.state.statuses
    ensures (id in v'.state.statuses && v'.state.statuses[id].status == InError)
         || (id in v'.versions && v'.versions[id] == v.state.statuses[id].version)
  {
    hide OperationEvent, Operation;
    var v1, err := InsideEvent(env, ApplyCalls(env), StateIdle, false, saveOk, v, v');
    ApplyStoresUnlessFailed(env);
    OperationStores(ApplyCalls(env), Entering(v, StateIdle), v1, err, id);
  }

  /** b is a or has a strictly higher precedence than a. */
  predicate Raised(semver: Precedence, a: string, b: string) {
    a == b || (semver(a).Some? && semver(b).Some? && semver(a).value < semver(b).value)
  }

  predicate NotBelow(semver: Precedence, a: string, b: string) {
    a == b || (semver(a).Some? && semver(b).Some? && semver(a).value <= semver(b).value)
  }

  predicate RecordRaises(semver: Precedence, versions: map<string, string>, record: HandlerState) {
    record.updateState == StatePrepared || record.updateState == StateUpdated ==>
      forall id :: id in record.statuses && id in versions ==> Raised(semver, versions[id], record.statuses[id].version)
  }

  /** Whatever a pending transaction may still store is what is stored already or has a higher precedence. */
  predicate PendingRaises<M>(semver: Precedence, v: View<M>) {
    RecordRaises(semver, v.versions, v.state) && RecordRaises(semver, v.versions, v.saved)
  }

  predicate VersionsRaised(semver: Precedence, versions: map<string, string>, versions': map<string, string>) {
    && versions.Keys <= versions'.Keys
    && forall id :: id in versions ==> Raised(semver, versions[id], versions'[id])
  }

  /** The module contract this needs: when a request arrives, a module it names reports no less than the version stored
      last, if it reports a valid version at all. */
  ghost predicate ReportsStored<M(!new)>(semver: Precedence, step: Label<M>, v: View<M>) {
    step.Happens? && step.event.Prepare? && v.fsm == StateIdle ==>
      forall id :: id in Accepted(v.installed, step.event.infos).infos ==> ReportsStoredOf(step.env, semver, v, id)
  }

  ghost predicate ReportsStoredOf<M(!new)>(env: Env<M>, semver: Precedence, v: View<M>, id: string) {
    id in v.components && id in v.versions ==>
      match env.version(v.components[id].updateModule)
      case Ok(reported) => semver(reported).Some? ==> NotBelow(semver, v.versions[id], reported)
      case Err(_) => true
  }

  /** Nothing is prepared unless each requested version is strictly above the one the module reports. */
  lemma PreparedIsHigher<M(!new)>(env: Env<M>, semver: Precedence, infos: seq<UpdateInfo>, saveOk: bool, v: View<M>,
                                  v': View<M>)
    requires Invariant(v) && PrepareEvent(env, semver, infos, saveOk, v, v') && v'.fsm == StatePrepared
    ensures v'.state.statuses.Keys == Accepted(v.installed, infos).infos.Keys
    ensures forall id :: id in v'.state.statuses ==>
            id in v.components && Higher(env, semver, v.components[id].updateModule, v'.state.statuses[id].version)
  {
    var a, v0, v1, err := InsidePrepare(env, semver, infos, saveOk, v, v');
    forall id | id in v'.state.statuses
      ensures id in v.components && Higher(env, semver, v.components[id].updateModule, v'.state.statuses[id].version)
    {
      OperationBegan(PrepareCalls(env, semver, a.infos), v0, v1, id);
      DonePrepareIsHigher(env, semver, a.infos, id, v.components[id].updateModule);
    }
  }

  lemma DonePrepareIsHigher<M(!new)>(env: Env<M>, semver: Precedence, infos: map<string, UpdateInfo>, id: string, m: M)
    requires id in infos && !DoPrepare(env, semver, infos, id, m).result.Failed?
    ensures Higher(env, semver, m, infos[id].version)
  {
  }

  ghost predicate Higher<M(!new)>(env: Env<M>, semver: Precedence, m: M, requested: string) {
    && env.version(m).Ok? && semver(env.version(m).value).Some? && semver(requested).Some?
    && semver(env.version(m).value).value < semver(requested).value
  }

  /** The requested version is the higher one, the image is in order and the module accepts it. */
  ghost predicate Ready<M(!new)>(env: Env<M>, semver: Precedence, m: M, info: UpdateInfo) {
    Higher(env, semver, m, info.version) && env.fetch(info).None? && env.prepare(m, info).1.None?
  }

  lemma DonePrepareIsReady<M(!new)>(env: Env<M>, semver: Precedence, infos: map<string, UpdateInfo>, id: string, m: M)
    requires id in infos
    ensures var result := DoPrepare(env, semver, infos, id, m).result;
      if Ready(env, semver, m, infos[id]) then result == Done else result.Failed?
  {
  }

  /** When every first call of an operation succeeds without asking for a reboot, the operation has no error. */
  lemma AllFirstCallsDone<M(!new)>(calls: Calls<M>, v: View<M>, v': View<M>, err: Option<Error>)
    requires Operation(calls, true, v, v', err) && PendingConfigured(v)
    requires forall id :: id in v.state.statuses ==>
               calls.operate(id, v.state.statuses[id].version, 0, v.components[id].updateModule).result == Done
    ensures err.None?
  {
    hide Outcome;
    var entries: map<string, Entry<M>> :| Outcome(calls, true, Entries(v), entries, err) && v' == Absorb(v, entries);
    FirstCallsDone(calls, Entries(v), entries, err);
  }

  lemma FirstCallsDone<M(!new)>(calls: Calls<M>, entries: map<string, Entry<M>>, entries': map<string, Entry<M>>,
                                err: Option<Error>)
    requires Outcome(calls, true, entries, entries', err)
    requires forall id :: id in entries ==>
               && Configured(entries, id) && entries[id].history == []
               && calls.operate(id, entries[id].status.version, 0, entries[id].component.value.updateModule).result ==
                    Done
    ensures err.None?
  {
    assert !AnyMissing(entries);
    forall id | Configured(entries', id) ensures !CallFailed(entries'[id]) {
      assert !Missing(entries, id);
      if entries'[id].history != [] {
        FirstCall(calls, id, entries[id], entries'[id]);
      }
    }
  }

  /** A prepare event ends in prepared exactly when the request is accepted, every module is ready for its update, and
      the record can be saved. */
  lemma PreparedIff<M(!new)>(env: Env<M>, semver: Precedence, infos: seq<UpdateInfo>, saveOk: bool, v: View<M>,
                             v': View<M>)
    requires Invariant(v) && v.fsm == StateIdle && PrepareEvent(env, semver, infos, saveOk, v, v')
    ensures var a := Accepted(v.installed, infos);
      && a.infos.Keys <= v.components.Keys
      && (v'.fsm == StatePrepared <==>
            saveOk && infos != [] && a.err.None?
            && forall id :: id in a.infos ==> Ready(env, semver, v.components[id].updateModule, a.infos[id]))
  {
    var a, v0, v1, err := InsidePrepare(env, semver, infos, saveOk, v, v');
    hide Operation, Ready, Accepted, PrepareEvent;
    forall id | id in a.infos
      ensures var result := DoPrepare(env, semver, a.infos, id, v.components[id].updateModule).result;
        if Ready(env, semver, v.components[id].updateModule, a.infos[id]) then result == Done else result.Failed?
    {
      DonePrepareIsReady(env, semver, a.infos, id, v.components[id].updateModule);
    }
    if v'.fsm == StatePrepared {
      forall id | id in a.infos ensures Ready(env, semver, v.components[id].updateModule, a.infos[id]) {
        OperationBegan(PrepareCalls(env, semver, a.infos), v0, v1, id);
      }
    } else if saveOk && infos != [] && a.err.None?
              && forall id :: id in a.infos ==> Ready(env, semver, v.components[id].updateModule, a.infos[id]) {
      AllFirstCallsDone(PrepareCalls(env, semver, a.infos), v0, v1, err);
    }
  }

  /** In prepared every module is as its Prepare for the requested image left it. */
  lemma PreparedModules<M(!new)>(env: Env<M>, semver: Precedence, infos: seq<UpdateInfo>, saveOk: bool, v: View<M>,
                                 v': View<M>, id: string)
    requires Invariant(v) && PrepareEvent(env, semver, infos, saveOk, v, v') && v'.fsm == StatePrepared
    requires id in v'.state.statuses
    ensures id in Accepted(v.installed, infos).infos && id in v.components && id in v'.components
    ensures (v'.components[id].updateModule, None)
         == env.prepare(v.components[id].updateModule, Accepted(v.installed, infos).infos[id])
  {
    var a, v0, v1, err := InsidePrepare(env, semver, infos, saveOk, v, v');
    hide Operation, Accepted, PrepareEvent, Reached;
    var e := OperationDone(PrepareCalls(env, semver, a.infos), v0, v1, id);
    OperationBegan(PrepareCalls(env, semver, a.infos), v0, v1, id);
    FirstCall(PrepareCalls(env, semver, a.infos), id, Entries(v0)[id], e);
    DonePrepareIsPrepared(env, semver, a.infos, id, v.components[id].updateModule);
  }

  lemma DonePrepareIsPrepared<M(!new)>(env: Env<M>, semver: Precedence, infos: map<string, UpdateInfo>, id: string,
                                       m: M)
    requires id in infos
    ensures var answer := DoPrepare(env, semver, infos, id, m);
      answer.result != RebootRequired
      && (!answer.result.Failed? ==> (answer.next, None) == env.prepare(m, infos[id]))
  {
  }

  lemma RaisedTransitive(semver: Precedence, a: string, b: string, c: string)
    requires Raised(semver, a, b) && Raised(semver, b, c)
    ensures Raised(semver, a, c)
  {
  }

  /** Storing requested versions that are raised over the stored ones raises them and leaves them requested. */
  lemma StoringRaises(semver: Precedence, versions: map<string, string>, statuses: map<string, StatusInfo>,
                      versions': map<string, string>)
    requires VersionsKept(versions, statuses, versions')
    requires forall id :: id in statuses && id in versions ==> Raised(semver, versions[id], statuses[id].version)
    ensures VersionsRaised(semver, versions, versions')
    ensures forall id :: id in statuses && id in versions' ==> Raised(semver, versions'[id], statuses[id].version)
  {
  }

  lemma PrepareRaises<M(!new)>(env: Env<M>, semver: Precedence, infos: seq<UpdateInfo>, saveOk: bool, v: View<M>,
                               v': View<M>)
    requires Invariant(v) && v.fsm == StateIdle && ReportsStored(semver, Happens(env, Prepare(infos), saveOk), v)
    requires PrepareEvent(env, semver, infos, saveOk, v, v')
    ensures PendingRaises(semver, v') && v'.versions == v.versions
  {
    hide PrepareEvent, Accepted, ReportsStoredOf;
    PrepareStoresNothing(env, semver, infos, saveOk, v, v');
    if v'.fsm == StatePrepared {
      PreparedIsHigher(env, semver, infos, saveOk, v, v');
      HigherRaises(env, semver, v, v'.state.statuses);
    }
  }

  lemma CallsNeverStore<M(!new)>(env: Env<M>, semver: Precedence, infos: map<string, UpdateInfo>)
    ensures NeverStores(PrepareCalls(env, semver, infos)) && NeverStores(UpdateCalls(env)) &&
            NeverStores(RevertCalls(env))
  {
  }

  lemma PrepareStoresNothing<M(!new)>(env: Env<M>, semver: Precedence, infos: seq<UpdateInfo>, saveOk: bool, v: View<M>,
                                      v': View<M>)
    requires Invariant(v) && v.fsm == StateIdle && PrepareEvent(env, semver, infos, saveOk, v, v')
    ensures v'.versions == v.versions && v'.state.updateState == v'.fsm &&
            (v'.fsm == StatePrepared || v'.fsm == StateFailed)
    ensures v'.saved == v'.state || v'.saved == v.state
  {
    var a, v0, v1, err := InsidePrepare(env, semver, infos, saveOk, v, v');
    if infos != [] && a.err.None? {
      CallsNeverStore(env, semver, a.infos);
      StoresNothing(PrepareCalls(env, semver, a.infos), true, v0, v1, err);
    }
  }

  lemma HigherRaises<M(!new)>(env: Env<M>, semver: Precedence, v: View<M>, statuses: map<string, StatusInfo>)
    requires forall id :: id in statuses ==>
             id in v.components && Higher(env, semver, v.components[id].updateModule, statuses[id].version)
    requires forall id :: id in statuses ==> ReportsStoredOf(env, semver, v, id)
    ensures forall id :: id in statuses && id in v.versions ==> Raised(semver, v.versions[id], statuses[id].version)
  {
  }

  lemma OperationRaises<M(!new)>(env: Env<M>, calls: Calls<M>, next: UpdateState, fails: bool, saveOk: bool,
                                 semver: Precedence, v: View<M>, v': View<M>)
    requires Invariant(v) && PendingRaises(semver, v) && OperationEvent(env, calls, next, fails, saveOk, v, v')
    requires NeverStores(calls) || v.fsm == StateUpdated
    requires next == StateIdle || v.fsm == StatePrepared
    ensures VersionsRaised(semver, v.versions, v'.versions) && PendingRaises(semver, v')
  {
    hide OperationEvent, Operation, NeverStores;
    var v1, err := InsideEvent(env, calls, next, fails, saveOk, v, v');
    if NeverStores(calls) {
      StoresNothing(calls, fails, Entering(v, next), v1, err);
    } else {
      StoringRaises(semver, v.versions, v.state.statuses, v1.versions);
    }
  }

  lemma RestartRaises<M(!new)>(env: Env<M>, semver: Precedence, v: View<M>, v': View<M>)
    requires Invariant(v) && PendingRaises(semver, v) && RestartStep(env, v, v')
    ensures VersionsRaised(semver, v.versions, v'.versions) && PendingRaises(semver, v')
  {
    if v.fsm == StateUpdated {
      StoringRaises(semver, v.versions, v.state.statuses, v'.versions);
    } else {
      assert forall id :: id in v'.versions ==> id in v.versions && v'.versions[id] == v.versions[id];
    }
  }

  lemma StepRaises<M(!new)>(semver: Precedence, step: Label<M>, v: View<M>, v': View<M>)
    requires Invariant(v) && PendingRaises(semver, v) && ReportsStored(semver, step, v) && Step(semver, step, v, v')
    ensures VersionsRaised(semver, v.versions, v'.versions) && PendingRaises(semver, v')
  {
    match step
    case Restarts(env) => RestartRaises(env, semver, v, v');
    case Happens(env, event, saveOk) =>
      if Enabled(v.fsm, event) {
        CallsNeverStore(env, semver, map[]);
        match event
        case Prepare(infos) => PrepareRaises(env, semver, infos, saveOk, v, v');
        case Update => OperationRaises(env, UpdateCalls(env), StateUpdated, true, saveOk, semver, v, v');
        case Apply => OperationRaises(env, ApplyCalls(env), StateIdle, false, saveOk, semver, v, v');
        case Revert => OperationRaises(env, RevertCalls(env), StateIdle, false, saveOk, semver, v, v');
      }
  }

  ghost predicate ContractKept<M(!new)>(semver: Precedence, labels: seq<Label<M>>, views: seq<View<M>>) {
    IsRun(semver, labels, views) && forall i {:trigger labels[i]} :: 0 <= i < |labels| ==>
        ReportsStored(semver, labels[i], views[i])
  }

  lemma RaisesStepAt<M(!new)>(semver: Precedence, labels: seq<Label<M>>, views: seq<View<M>>, i: nat)
    requires ContractKept(semver, labels, views) && i < |labels| && Invariant(views[i]) &&
             PendingRaises(semver, views[i])
    ensures VersionsRaised(semver, views[i].versions, views[i + 1].versions) && PendingRaises(semver, views[i + 1])
  {
    StepRaises(semver, labels[i], views[i], views[i + 1]);
  }

  /** Over every run, through failures, failed saves and restarts within an event, the version stored for a component
      stays what it is or gives way to one of strictly higher precedence. */
  lemma {:induction false} VersionsNeverGoBack<M(!new)>(semver: Precedence, labels: seq<Label<M>>, views: seq<View<M>>,
                                                        i: nat, j: nat)
    requires ContractKept(semver, labels, views) && Invariant(views[0]) && PendingRaises(semver, views[0]) &&
             i <= j < |views|
    ensures VersionsRaised(semver, views[i].versions, views[j].versions) && PendingRaises(semver, views[j])
    decreases j
  {
    hide Step, PendingRaises;
    if j > 0 {
      VersionsNeverGoBack(semver, labels, views, if i < j then i else j - 1, j - 1);
      InvariantAlways(semver, labels, views, j - 1);
      RaisesStepAt(semver, labels, views, j - 1);
      if i < j {
        VersionsRaisedTransitive(semver, views[i].versions, views[j - 1].versions, views[j].versions);
      }
    }
  }

  /** A first start meets what the runs start from. */
  lemma FirstStart<M(!new)>(env: Env<M>, semver: Precedence, v: View<M>)
    requires Started(env, NEW_STATE, v)
    ensures Invariant(v) && PendingRaises(semver, v) && v.saved.updateState == StateIdle
  {
  }

  lemma VersionsRaisedTransitive(semver: Precedence, a: map<string, string>, b: map<string, string>,
                                 c: map<string, string>)
    requires VersionsRaised(semver, a, b) && VersionsRaised(semver, b, c)
    ensures VersionsRaised(semver, a, c)
  {
    forall id | id in a ensures Raised(semver, a[id], c[id]) {
      RaisedTransitive(semver, a[id], b[id], c[id]);
    }
  }

  // ---------------------------------------------------------------- reported versions

  /** The version reported for every component of the transaction is the one captured when it was prepared, and the
      record in storage is the one in memory. */
  predicate ReportsCaptured<M>(v: View<M>) {
    && v.saved == v.state
    && forall id :: id in v.state.currentVersions ==>
         id in v.installed && v.installed[id].version == v.state.currentVersions[id]
  }

  lemma PrepareCaptures<M(!new)>(env: Env<M>, semver: Precedence, infos: seq<UpdateInfo>, v: View<M>, v': View<M>)
    requires Invariant(v) && v.fsm == StateIdle && EventStep(env, semver, Prepare(infos), true, v, v')
    ensures ReportsCaptured(v') && v'.installed == v.installed
    ensures forall id :: id in v'.state.statuses ==>
            id in v'.state.currentVersions && v'.state.currentVersions[id] == v.installed[id].version
    ensures forall id :: id in v'.state.statuses ==>
              id in Accepted(v.installed, infos).infos &&
                  v'.state.statuses[id].version == Accepted(v.installed, infos).infos[id].version
  {
    var a, v0, v1, err := InsidePrepare(env, semver, infos, true, v, v');
  }

  predicate Saves<M>(step: Label<M>) {
    step.Happens? ==> step.saveOk
  }

  lemma StepKeepsReport<M(!new)>(semver: Precedence, step: Label<M>, v: View<M>, v': View<M>)
    requires Invariant(v) && ReportsCaptured(v) && Saves(step) && Step(semver, step, v, v')
    requires v.fsm != StateIdle && v'.fsm != StateIdle
    ensures ReportsCaptured(v') && v'.state.currentVersions == v.state.currentVersions
  {
    match step
    case Restarts(env) =>
    case Happens(env, event, saveOk) =>
      if Enabled(v.fsm, event) {
        match event
        case Prepare(infos) =>
        case Update => var _, _ := InsideEvent(env, UpdateCalls(env), StateUpdated, true, saveOk, v, v');
        case Apply => var _, _ := InsideEvent(env, ApplyCalls(env), StateIdle, false, saveOk, v, v');
        case Revert => var _, _ := InsideEvent(env, RevertCalls(env), StateIdle, false, saveOk, v, v');
      }
  }

  lemma ReportStepAt<M(!new)>(semver: Precedence, labels: seq<Label<M>>, views: seq<View<M>>, i: nat)
    requires IsRun(semver, labels, views) && i < |labels| && Invariant(views[i]) && ReportsCaptured(views[i]) &&
             Saves(labels[i])
    requires views[i].fsm != StateIdle && views[i + 1].fsm != StateIdle
    ensures ReportsCaptured(views[i + 1]) && views[i + 1].state.currentVersions == views[i].state.currentVersions
  {
    StepKeepsReport(semver, labels[i], views[i], views[i + 1]);
  }

  /** While saves succeed and the transaction is open, the reported versions stay those captured at prepare, through
      any number of events and restarts and whatever the modules themselves report by then. */
  lemma {:induction false} ReportStaysCaptured<M(!new)>(semver: Precedence, labels: seq<Label<M>>, views: seq<View<M>>,
                                                        i: nat, j: nat)
    requires IsRun(semver, labels, views) && Invariant(views[0]) && i <= j < |views| && ReportsCaptured(views[i])
    requires forall k :: i <= k < j ==> Saves(labels[k])
    requires forall k :: i <= k <= j ==> views[k].fsm != StateIdle
    ensures ReportsCaptured(views[j]) && views[j].state.currentVersions == views[i].state.currentVersions
    decreases j
  {
    hide Step, ReportsCaptured;
    if i < j {
      ReportStaysCaptured(semver, labels, views, i, j - 1);
      InvariantAlways(semver, labels, views, j - 1);
      ReportStepAt(semver, labels, views, j - 1);
    }
  }

  /** On return to idle the reported versions are the modules' own. */
  lemma IdleReportsModules<M(!new)>(env: Env<M>, semver: Precedence, event: Event, saveOk: bool, v: View<M>,
                                    v': View<M>)
    requires Invariant(v) && v.fsm != StateIdle && EventStep(env, semver, event, saveOk, v, v') && v'.fsm == StateIdle
    ensures forall id :: id in v'.components ==>
            id in v'.installed && v'.installed[id].version == ReportedVersion(env, v', id)
    ensures forall id :: id in v'.components && env.version(v'.components[id].updateModule).Ok? ==>
              id in v'.installed && env.version(v'.components[id].updateModule) == Ok(v'.installed[id].version)
  {
    match event
    case Prepare(infos) =>
    case Update => var _, _ := InsideEvent(env, UpdateCalls(env), StateUpdated, true, saveOk, v, v');
    case Apply => IdleInside(env, ApplyCalls(env), saveOk, v, v');
    case Revert => IdleInside(env, RevertCalls(env), saveOk, v, v');
  }

  lemma IdleInside<M(!new)>(env: Env<M>, calls: Calls<M>, saveOk: bool, v: View<M>, v': View<M>)
    requires v.installed.Keys == v.components.Keys && OperationEvent(env, calls, StateIdle, false, saveOk, v, v') &&
             v'.fsm == StateIdle
    ensures forall id :: id in v'.components ==>
            id in v'.installed && v'.installed[id].version == ReportedVersion(env, v', id)
    ensures v'.state.updateState == StateIdle
  {
    var v1, err := SettledFrom(env, calls, StateIdle, false, saveOk, v, v');
    SettleReports(env, Recorded(v1, err, false), saveOk);
  }

  lemma SettledFrom<M(!new)>(env: Env<M>, calls: Calls<M>, next: UpdateState, fails: bool, saveOk: bool, v: View<M>,
                             v': View<M>)
    returns (v1: View<M>, err: Option<Error>)
    requires OperationEvent(env, calls, next, fails, saveOk, v, v')
    ensures Kept(Entering(v, next), v1) && v' == Settle(env, Recorded(v1, err, fails), saveOk)
  {
    v1, err :| Operation(calls, fails, Entering(v, next), v1, err) &&
        v' == Settle(env, Recorded(v1, err, fails), saveOk);
    OperationKeeps(calls, fails, Entering(v, next), v1, err);
  }

  lemma SettleReports<M(!new)>(env: Env<M>, v: View<M>, saveOk: bool)
    requires v.installed.Keys == v.components.Keys && v.fsm == StateIdle && Settle(env, v, saveOk).fsm == StateIdle
    ensures var v' := Settle(env, v, saveOk);
      v'.state.updateState == StateIdle
      && forall id :: id in v'.components ==>
           id in v'.installed && v'.installed[id].version == ReportedVersion(env, v', id)
  {
  }
}
