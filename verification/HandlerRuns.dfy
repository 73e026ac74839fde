/** What the update handler keeps over whole runs of events and restarts. */
module HandlerRuns {
  import opened Prelude
  import opened ComponentOperations
  import opened OperationLoop
  import opened HandlerSpec

  /** One step of a run: an event with the environment it met, or a stop and a new start. */
  datatype Label<!M> = Happens(env: Env<M>, event: Event, saveOk: bool) | Restarts(env: Env<M>)

  ghost predicate Step<M(!new)>(semver: Precedence, step: Label<M>, v: View<M>, v': View<M>) {
    match step
    case Happens(env, event, saveOk) => EventStep(env, semver, event, saveOk, v, v')
    case Restarts(env) => RestartStep(env, v, v')
  }

  ghost predicate IsRun<M(!new)>(semver: Precedence, labels: seq<Label<M>>, views: seq<View<M>>) {
    && |views| == |labels| + 1
    && forall i {:trigger labels[i]} :: 0 <= i < |labels| ==> Step(semver, labels[i], views[i], views[i + 1])
  }

  // ---------------------------------------------------------------- what an operation leaves alone

  /** An operation changes modules, the status and error of pending components, and stored versions; a version it
      stores is the requested one. */
  predicate Kept<M>(v: View<M>, v': View<M>) {
    && v'.components.Keys == v.components.Keys && v'.installed == v.installed && v'.saved == v.saved && v'.fsm == v.fsm
    && v'.state == v.state.(statuses := v'.state.statuses) && v'.state.statuses.Keys == v.state.statuses.Keys
    && (forall id :: id in v.state.statuses ==> v'.state.statuses[id].version == v.state.statuses[id].version)
    && VersionsKept(v.versions, v.state.statuses, v'.versions)
  }

  predicate VersionsKept(versions: map<string, string>, statuses: map<string, StatusInfo>,
                         versions': map<string, string>) {
    && versions.Keys <= versions'.Keys
    && forall id :: id in versions' ==>
         || (id in versions && versions'[id] == versions[id])
         || (id in statuses && versions'[id] == statuses[id].version)
  }

  lemma OutcomeKeeps<M(!new)>(calls: Calls<M>, stopOnError: bool, entries: map<string, Entry<M>>,
                              entries': map<string, Entry<M>>, err: Option<Error>)
    requires Outcome(calls, stopOnError, entries, entries', err)
    ensures entries'.Keys == entries.Keys
    ensures forall id :: id in entries ==>
              && entries'[id].status.version == entries[id].status.version
              && (entries'[id].stored == entries[id].stored || entries'[id].stored == Some(entries[id].status.version))
  {
    forall id | id in entries
      ensures entries'[id].status.version == entries[id].status.version
      ensures entries'[id].stored == entries[id].stored || entries'[id].stored == Some(entries[id].status.version)
    {
      assert Missing(entries, id) || Reached(calls, id, entries[id], entries'[id]) || entries'[id] == entries[id];
    }
  }

  lemma AbsorbKeeps<M>(v: View<M>, entries: map<string, Entry<M>>)
    requires entries.Keys == v.state.statuses.Keys
    requires forall id :: id in entries ==>
               && entries[id].status.version == v.state.statuses[id].version
               && (entries[id].stored == Lookup(v.versions, id) ||
                     entries[id].stored == Some(v.state.statuses[id].version))
    ensures Kept(v, Absorb(v, entries))
  {
  }

  lemma OperationKeeps<M(!new)>(calls: Calls<M>, stopOnError: bool, v: View<M>, v': View<M>, err: Option<Error>)
    requires Operation(calls, stopOnError, v, v', err)
    ensures Kept(v, v')
  {
    hide Outcome, Kept;
    var entries: map<string, Entry<M>> :| Outcome(calls, stopOnError, Entries(v), entries, err) &&
        v' == Absorb(v, entries);
    OutcomeKeeps(calls, stopOnError, Entries(v), entries, err);
    AbsorbKeeps(v, entries);
  }

  // ---------------------------------------------------------------- the state-machine invariant

  predicate RecordOK(components: set<string>, record: HandlerState) {
    && record.statuses.Keys <= components
    && (record.updateState == StateIdle ==> forall id :: id in record.statuses ==>
          record.statuses[id].status == InError)
  }

  /** Memory, state machine and storage agree except in failed; pending components are configured ones; in idle only
      components in error are left. */
  predicate Invariant<M>(v: View<M>) {
    && v.state.updateState == v.fsm
    && v.installed.Keys == v.components.Keys
    && RecordOK(v.components.Keys, v.state) && RecordOK(v.components.Keys, v.saved)
    && (v.fsm != StateFailed ==> v.saved == v.state)
  }

  /** What a request's bookkeeping says about each component in it. */
  predicate AcceptanceOK(installed: map<string, StatusInfo>, a: Acceptance) {
    && a.statuses.Keys == a.versions.Keys == a.infos.Keys && a.infos.Keys <= installed.Keys
    && (forall id :: id in a.infos ==>
          a.versions[id] == installed[id].version && a.statuses[id].version == a.infos[id].version)
  }

  lemma AcceptOne(installed: map<string, StatusInfo>, a: Acceptance, id: string, status: StatusInfo, info: UpdateInfo)
    requires AcceptanceOK(installed, a) && id in installed && status.version == info.version
    ensures AcceptanceOK(installed, Acceptance(a.statuses[id := status], a.versions[id := installed[id].version],
            a.infos[id := info], None))
  {
  }

  lemma {:induction false} AcceptedAreInstalled(installed: map<string, StatusInfo>, infos: seq<UpdateInfo>)
    ensures AcceptanceOK(installed, Accepted(installed, infos))
  {
    if infos != [] {
      var front, info := infos[..|infos| - 1], infos[|infos| - 1];
      AcceptedAreInstalled(installed, front);
      if info.id in installed {
        AcceptOne(installed, Accepted(installed, front), info.id,
            StatusInfo(info.componentType, info.version, Installing, ""), info);
      }
    }
  }

  /** A request is accepted exactly when each entry names an installed component that is not in error; then every
      entry's component is pending. */
  lemma {:induction false} AcceptedExactly(installed: map<string, StatusInfo>, infos: seq<UpdateInfo>)
    ensures Accepted(installed, infos).err.None?
       <==> forall i :: 0 <= i < |infos| ==> infos[i].id in installed && installed[infos[i].id].status != InError
    ensures Accepted(installed, infos).err.None? ==>
              forall id :: id in Accepted(installed, infos).infos <==> exists i :: 0 <= i < |infos| && infos[i].id == id
  {
    if infos != [] {
      var front, last := infos[..|infos| - 1], infos[|infos| - 1];
      AcceptedExactly(installed, front);
      assert infos == front + [last];
      assert forall i :: 0 <= i < |front| ==> infos[i] == front[i];
      assert infos[|front|] == last;
    }
  }

  /** What is true of a view on the way through an event, just before it settles. */
  predicate Midway<M>(v: View<M>) {
    && v.installed.Keys == v.components.Keys && v.state.statuses.Keys <= v.components.Keys
    && RecordOK(v.components.Keys, v.saved)
  }

  lemma SettleEstablishes<M(!new)>(env: Env<M>, v: View<M>, saveOk: bool)
    requires Midway(v)
    ensures Invariant(Settle(env, v, saveOk))
    ensures Settle(env, v, saveOk).components.Keys == v.components.Keys
    ensures saveOk ==>
              Settle(env, v, saveOk).saved == Settle(env, v, saveOk).state && Settle(env, v, saveOk).fsm == v.fsm
    ensures !saveOk ==> Settle(env, v, saveOk).fsm == StateFailed
  {
  }

  lemma StepKeepsInvariant<M(!new)>(semver: Precedence, step: Label<M>, v: View<M>, v': View<M>)
    requires Invariant(v) && Step(semver, step, v, v')
    ensures Invariant(v') && v'.components.Keys == v.components.Keys
  {
    match step
    case Restarts(env) =>
    case Happens(env, event, saveOk) =>
      if Enabled(v.fsm, event) {
        match event
        case Prepare(infos) => PrepareKeepsInvariant(env, semver, infos, saveOk, v, v');
        case Update => OperationKeepsInvariant(env, UpdateCalls(env), StateUpdated, true, saveOk, v, v');
        case Apply => OperationKeepsInvariant(env, ApplyCalls(env), StateIdle, false, saveOk, v, v');
        case Revert => OperationKeepsInvariant(env, RevertCalls(env), StateIdle, false, saveOk, v, v');
      }
  }

  lemma PrepareKeepsInvariant<M(!new)>(env: Env<M>, semver: Precedence, infos: seq<UpdateInfo>, saveOk: bool,
                                       v: View<M>, v': View<M>)
    requires Invariant(v) && PrepareEvent(env, semver, infos, saveOk, v, v')
    ensures Invariant(v') && v'.components.Keys == v.components.Keys
  {
    hide Operation, Outcome;
    AcceptedAreInstalled(v.installed, infos);
    var a := Accepted(v.installed, infos);
    var v0 := Requested(Entering(v, StatePrepared), a);
    assert Midway(v0);
    if infos == [] || a.err.Some? {
      var refusal := if infos == [] then Some("prepare component list is empty") else a.err;
      SettleEstablishes(env, Recorded(v0, refusal, true), saveOk);
    } else {
      var v1, err :| Operation(PrepareCalls(env, semver, a.infos), true, v0, v1, err) &&
          v' == Settle(env, Recorded(v1, err, true), saveOk);
      OperationSettles(env, PrepareCalls(env, semver, a.infos), true, v0, v1, err, saveOk);
    }
  }

  lemma OperationSettles<M(!new)>(env: Env<M>, calls: Calls<M>, fails: bool, v: View<M>, v': View<M>,
                                  err: Option<Error>, saveOk: bool)
    requires Midway(v) && Operation(calls, fails, v, v', err)
    ensures Invariant(Settle(env, Recorded(v', err, fails), saveOk))
    ensures Settle(env, Recorded(v', err, fails), saveOk).components.Keys == v.components.Keys
  {
    hide Operation;
    OperationKeeps(calls, fails, v, v', err);
    SettleEstablishes(env, Recorded(v', err, fails), saveOk);
  }

  lemma OperationKeepsInvariant<M(!new)>(env: Env<M>, calls: Calls<M>, next: UpdateState, fails: bool, saveOk: bool,
                                         v: View<M>, v': View<M>)
    requires Invariant(v) && OperationEvent(env, calls, next, fails, saveOk, v, v')
    ensures Invariant(v') && v'.components.Keys == v.components.Keys
  {
    hide Operation, Outcome;
    var v1, err :| Operation(calls, fails, Entering(v, next), v1, err) &&
        v' == Settle(env, Recorded(v1, err, fails), saveOk);
    OperationSettles(env, calls, fails, Entering(v, next), v1, err, saveOk);
  }

  lemma InvariantStepAt<M(!new)>(semver: Precedence, labels: seq<Label<M>>, views: seq<View<M>>, i: nat)
    requires IsRun(semver, labels, views) && i < |labels| && Invariant(views[i])
    ensures Invariant(views[i + 1]) && views[i + 1].components.Keys == views[i].components.Keys
  {
    StepKeepsInvariant(semver, labels[i], views[i], views[i + 1]);
  }

  /** The invariant holds throughout every run. */
  lemma {:induction false} InvariantAlways<M(!new)>(semver: Precedence, labels: seq<Label<M>>, views: seq<View<M>>,
                                                    i: nat)
    requires IsRun(semver, labels, views) && Invariant(views[0]) && i < |views|
    ensures Invariant(views[i]) && views[i].components.Keys == views[0].components.Keys
  {
    hide Step, Invariant;
    if i > 0 {
      InvariantAlways(semver, labels, views, i - 1);
      InvariantStepAt(semver, labels, views, i - 1);
    }
  }
}
