/** The update handler: its events change its fields step by step, as HandlerSpec says they may. */
module UpdateHandler {
  import opened Prelude
  import opened ComponentOperations
  import opened OperationLoop
  import opened HandlerSpec

  /** Initialises the modules, highest update priority first; the errors are only noted in the statuses. */
  method InitModules<M(!new)>(env: Env<M>, components: map<string, Component<M>>, statuses: map<string, StatusInfo>)
    returns (components': map<string, Component<M>>, statuses': map<string, StatusInfo>, order: seq<string>)
    requires statuses.Keys == components.Keys
    ensures components'.Keys == components.Keys && statuses'.Keys == components.Keys
    ensures HighestFirst(components, order)
    ensures forall id :: id in components ==>
              && components'[id] == components[id].(updateModule := env.init(components[id].updateModule).next)
              && statuses'[id] == match env.init(components[id].updateModule).result
                                  case Failed(e) => WithError(statuses[id], e)
                                  case _ => statuses[id]
  {
    var entries := map id | id in components :: Entry(Some(components[id]), statuses[id], [], None);
    var calls := Calls((id: string, version: string, made: nat, m: M) => env.init(m), RebootOf(env));
    var done;
    done, order := CallAll(calls, entries);
    TurnsOf(components, entries, order);
    hide HighestFirst, InTurn;
    components' := map id | id in components :: done[id].component.value;
    statuses' := map id | id in components :: done[id].status;
  }

  /** All components, each once, in descending update priority. */
  ghost predicate HighestFirst<M>(components: map<string, Component<M>>, order: seq<string>) {
    && DistinctIds(order) && (forall id :: id in order <==> id in components)
    && forall i, j :: 0 <= i < j < |order| && order[i] in components && order[j] in components ==>
         components[order[i]].updatePriority >= components[order[j]].updatePriority
  }

  lemma TurnsOf<M>(components: map<string, Component<M>>, entries: map<string, Entry<M>>, order: seq<string>)
    requires entries.Keys == components.Keys && forall id :: id in components ==>
               entries[id].component == Some(components[id])
    requires InTurn(Operate, entries, order) && forall id :: id in order <==> id in entries
    ensures HighestFirst(components, order)
  {
    forall i, j | 0 <= i < j < |order| && order[i] in components && order[j] in components
      ensures components[order[i]].updatePriority >= components[order[j]].updatePriority
    {
      assert Priority(Operate, entries, order[i]) >= Priority(Operate, entries, order[j]);
    }
  }

  method CallAll<M(!new)>(calls: Calls<M>, entries: map<string, Entry<M>>)
    returns (done: map<string, Entry<M>>, order: seq<string>)
    requires forall id :: id in entries ==> entries[id].component.Some?
    ensures done.Keys == entries.Keys && forall id :: id in entries ==>
            done[id] == Perform(calls, Operate, id, entries[id])
    ensures InTurn(Operate, entries, order) && forall id :: id in order <==> id in entries
  {
    var ids := Enumerate(entries);
    var reboots, err;
    done, order, reboots, err := DoRound(calls, Operate, ids, false, entries);
  }

  /** Goes through a request until an entry is refused; what was accepted before it is kept. */
  method Accept(installed: map<string, StatusInfo>, infos: seq<UpdateInfo>) returns (a: Acceptance)
    ensures a == Accepted(installed, infos)
  {
    a := Acceptance(map[], map[], map[], None);
    for k := 0 to |infos|
      invariant a == Accepted(installed, infos[..k]) && a.err.None?
    {
      var info := infos[k];
      assert infos[..k + 1][..k] == infos[..k];
      RefusalStays(installed, infos, k + 1);
      if info.id !in installed { return a.(err := Some("component is not installed")); }
      if installed[info.id].status == InError { return a.(err := Some(installed[info.id].error)); }
      a := Acceptance(a.statuses[info.id := StatusInfo(info.componentType, info.version, Installing, "")],
                      a.versions[info.id := installed[info.id].version],
                      a.infos[info.id := info], None);
    }
    assert infos[..|infos|] == infos;
  }

  /** An operation in which some component has asked for a reboot in each of so many rounds. */
  ghost predicate Asking<M(!new)>(calls: Calls<M>, v: View<M>, v': View<M>, rounds: nat) {
    exists entries :: StillAsking(calls, Entries(v), entries, rounds) && v' == Absorb(v, entries)
  }

  /** Modules whose rank drops with every request for a reboot do not ask for ever. */
  lemma NotAsking<M(!new)>(calls: Calls<M>, v: View<M>, v': View<M>, rank: M -> nat, bound: nat)
    requires RanksDrop(calls, rank) && forall id :: id in v.components ==> rank(v.components[id].updateModule) <= bound
    ensures !Asking(calls, v, v', bound + 1)
  {
    hide RanksDrop, StillAsking, Absorb;
    if Asking(calls, v, v', bound + 1) {
      var entries: map<string, Entry<M>> :| StillAsking(calls, Entries(v), entries, bound + 1) &&
          v' == Absorb(v, entries);
      LoopFinishes(calls, Entries(v), entries, rank, bound);
      assert false;
    }
  }

  lemma Happened<M(!new)>(env: Env<M>, calls: Calls<M>, next: UpdateState, fails: bool, saveOk: bool, v: View<M>,
                          v1: View<M>, err: Option<Error>)
    requires HandlerSpec.Operation(calls, fails, Entering(v, next), v1, err)
    ensures OperationEvent(env, calls, next, fails, saveOk, v, Settle(env, Recorded(v1, err, fails), saveOk))
  {
    hide HandlerSpec.Operation, Settle, Recorded;
  }

  class Handler<M(!new)> {
    var components: map<string, Component<M>>
    var componentStatuses: map<string, StatusInfo>
    var state: HandlerState
    var fsm: UpdateState
    var saved: HandlerState
    var versions: map<string, string>

    ghost function Now(): View<M>
      reads this
    {
      View(components, componentStatuses, state, fsm, saved, versions)
    }

    /** Reads the persisted record (none is a new one) and initialises every module; an Init error marks the
        component but does not stop the others. */
    constructor  (env: Env<M>, components: map<string, Component<M>>, types: map<string, string>,
                  saved: Option<HandlerState>, versions: map<string, string>)
      requires types.Keys == components.Keys
      ensures Started(env, if saved.Some? then saved.value else NEW_STATE, Now())
      ensures this.components.Keys == components.Keys && this.versions == versions
      ensures forall id :: id in components ==>
                this.components[id] == components[id].(updateModule := env.init(components[id].updateModule).next)
      ensures forall id :: id in components ==>
                (componentStatuses[id].status == InError <==> env.init(components[id].updateModule).result.Failed?)
    {
      this.components, this.versions := components, versions;
      this.saved := if saved.Some? then saved.value else NEW_STATE;
      this.state := if saved.Some? then saved.value else NEW_STATE;
      this.fsm := if saved.Some? then saved.value.updateState else StateIdle;
      this.componentStatuses := map id | id in components :: StatusInfo(types[id], "", Installed, "");
      new;
      var _ := Init(env);
    }

    method Init(env: Env<M>) returns (ghost order: seq<string>)
      requires componentStatuses.Keys == components.Keys
      modifies `components, `componentStatuses
      ensures components.Keys == old(components.Keys) && componentStatuses.Keys == components.Keys
      ensures HighestFirst(old(components), order)
      ensures forall id :: id in components ==> componentStatuses[id].version == ReportedVersion(env, Now(), id)
      ensures forall id :: id in components ==>
                components[id] == old(components)[id].(updateModule := env.init(old(components)[id].updateModule).next)
      ensures forall id :: id in components ==>
                (componentStatuses[id].status == InError <==>
                   old(componentStatuses)[id].status == InError ||
                       env.init(old(components)[id].updateModule).result.Failed?)
    {
      components, componentStatuses, order := InitModules(env, components, componentStatuses);
      GetVersions(env);
    }

    method GetVersions(env: Env<M>)
      requires componentStatuses.Keys == components.Keys
      modifies `componentStatuses
      ensures Now() == HandlerSpec.GetVersions(env, old(Now()))
    {
      componentStatuses := map id | id in componentStatuses ::
          componentStatuses[id].(version := ReportedVersionNow(env, id));
    }

    function ReportedVersionNow(env: Env<M>, id: string): string
      requires id in components
      reads this
    {
      if state.updateState == StateIdle || id !in state.currentVersions
      then match env.version(components[id].updateModule) case Ok(s) => s case Err(_) => ""
      else state.currentVersions[id]
    }

    method OnStateChanged(env: Env<M>, saveOk: bool)
      requires componentStatuses.Keys == components.Keys
      modifies this
      ensures Now() == Settle(env, old(Now()), saveOk)
    {
      state := state.(updateState := fsm);
      if state.updateState == StateIdle {
        GetVersions(env);
        state := state.(statuses := map id | id in state.statuses && state.statuses[id].status == InError ::
                                    state.statuses[id]);
      }
      if saveOk {
        saved := state;
      } else {
        if state.error == "" { state := state.(error := "save failed"); }
        state := state.(updateState := StateFailed);
        fsm := StateFailed;
      }
    }

    /** Runs an operation over the pending components, watched for so many rounds. When it is not finished by then, some
        component has asked for a reboot in each of them, and the handler is as the calls so far left it. */
    method OnComponents(calls: Calls<M>, stopOnError: bool, rounds: nat) returns (err: Option<Error>, finished: bool)
      requires rounds > 0
      modifies `components, `state, `versions
      ensures components.Keys == old(components.Keys)
      ensures finished ==> Operation(calls, stopOnError, old(Now()), Now(), err)
      ensures !finished ==> Asking(calls, old(Now()), Now(), rounds)
    {
      hide Outcome, Absorb, StillAsking;
      ghost var before := Now();
      var entries := map id | id in state.statuses ::
          Entry(Lookup(components, id), state.statuses[id], [], Lookup(versions, id));
      assert entries == Entries(before);
      var after;
      after, err, finished := ComponentOperation(calls, stopOnError, entries, rounds);
      TakeOver(after);
    }

    /** What the calls did to the modules, the statuses and the stored versions. */
    method TakeOver(after: map<string, Entry<M>>)
      modifies `components, `state, `versions
      ensures Now() == Absorb(old(Now()), after) && components.Keys == old(components.Keys)
    {
      components := map id | id in components ::
        if id in after && after[id].component.Some? then after[id].component.value else components[id];
      state := state.(statuses := map id | id in after :: after[id].status);
      versions := map id | id in versions.Keys + after.Keys && (id in after ==> after[id].stored.Some?) ::
        if id in after then after[id].stored.value else versions[id];
    }

    /** What the four public calls keep true of the handler between events. */
    ghost predicate Valid()
      reads this
    {
      componentStatuses.Keys == components.Keys
    }

    method OnPrepare(env: Env<M>, semver: Precedence, infos: seq<UpdateInfo>) returns (err: Option<Error>)
      requires Valid()
      modifies `components, `state, `versions
      ensures Valid()
      ensures var a := Accepted(componentStatuses, infos);
        var requested := Requested(old(Now()).(state := old(state).(error := "")), a);
        if infos == [] || a.err.Some?
        then Now() == requested && err == if infos == [] then Some("prepare component list is empty") else a.err
        else Operation(PrepareCalls(env, semver, a.infos), true, requested, Now(), err)
    {
      hide Outcome, HandlerSpec.Operation, Accepted, Asking;
      var a := Accept(componentStatuses, infos);
      state := state.(error := "", statuses := a.statuses, currentVersions := a.versions);
      if |infos| == 0 { return Some("prepare component list is empty"); }
      if a.err.Some? { return a.err; }
      // preparing never asks for a reboot, so any rank will do
      assert RanksDrop(PrepareCalls(env, semver, a.infos), m => 0);
      forall v: View<M>, v': View<M> ensures !Asking(PrepareCalls(env, semver, a.infos), v, v', 1) {
        NotAsking(PrepareCalls(env, semver, a.infos), v, v', m => 0, 0);
      }
      var finished;
      err, finished := OnComponents(PrepareCalls(env, semver, a.infos), true, 1);
    }

    /** An event is processed completely, callbacks included, before the next one. */
    method PrepareUpdate(env: Env<M>, semver: Precedence, infos: seq<UpdateInfo>, saveOk: bool)
      requires Valid()
      modifies this
      ensures Valid() && EventStep(env, semver, Prepare(infos), saveOk, old(Now()), Now())
    {
      if fsm != StateIdle { return; }
      fsm := StatePrepared;
      var err := OnPrepare(env, semver, infos);
      Settled(env, err, true, saveOk);
    }

    /** Records the error of the event's operation and settles. */
    method Settled(env: Env<M>, err: Option<Error>, fails: bool, saveOk: bool)
      requires Valid()
      modifies this
      ensures Valid() && Now() == Settle(env, Recorded(old(Now()), err, fails), saveOk) && components == old(components)
    {
      if err.Some? {
        state := state.(error := err.value);
        if fails { fsm := StateFailed; }
      }
      OnStateChanged(env, saveOk);
    }

    /** A transition to the next state, whose callback runs the operation and records its error, and what follows every
        transition. */
    method Transition(env: Env<M>, calls: Calls<M>, next: UpdateState, fails: bool, saveOk: bool, rounds: nat)
      returns (finished: bool)
      requires Valid() && rounds > 0
      modifies this
      ensures Valid() && components.Keys == old(components.Keys)
      ensures finished ==> OperationEvent(env, calls, next, fails, saveOk, old(Now()), Now())
      ensures !finished ==> Asking(calls, Entering(old(Now()), next), Now(), rounds)
    {
      hide HandlerSpec.Operation, OperationEvent, Settle, Asking;
      ghost var before := Now();
      fsm, state := next, state.(error := "");
      var err;
      err, finished := OnComponents(calls, fails, rounds);
      if finished {
        Happened(env, calls, next, fails, saveOk, before, Now(), err);
        Settled(env, err, fails, saveOk);
      }
    }

    method StartUpdate(env: Env<M>, semver: Precedence, saveOk: bool, rounds: nat) returns (finished: bool)
      requires Valid() && rounds > 0
      modifies this
      ensures Valid() && components.Keys == old(components.Keys)
      ensures finished ==> EventStep(env, semver, Update, saveOk, old(Now()), Now())
      ensures !finished ==> Asking(UpdateCalls(env), Entering(old(Now()), StateUpdated), Now(), rounds)
    {
      hide OperationEvent, PrepareEvent, Asking, UpdateCalls;
      if fsm != StatePrepared { return true; }
      finished := Transition(env, UpdateCalls(env), StateUpdated, true, saveOk, rounds);
    }

    method ApplyUpdate(env: Env<M>, semver: Precedence, saveOk: bool, rounds: nat) returns (finished: bool)
      requires Valid() && rounds > 0
      modifies this
      ensures Valid() && components.Keys == old(components.Keys)
      ensures finished ==> EventStep(env, semver, Apply, saveOk, old(Now()), Now())
      ensures !finished ==> Asking(ApplyCalls(env), Entering(old(Now()), StateIdle), Now(), rounds)
    {
      hide OperationEvent, PrepareEvent, Asking, ApplyCalls;
      if fsm != StateUpdated { return true; }
      finished := Transition(env, ApplyCalls(env), StateIdle, false, saveOk, rounds);
    }

    method RevertUpdate(env: Env<M>, semver: Precedence, saveOk: bool, rounds: nat) returns (finished: bool)
      requires Valid() && rounds > 0
      modifies this
      ensures Valid() && components.Keys == old(components.Keys)
      ensures finished ==> EventStep(env, semver, Revert, saveOk, old(Now()), Now())
      ensures !finished ==> Asking(RevertCalls(env), Entering(old(Now()), StateIdle), Now(), rounds)
    {
      hide OperationEvent, PrepareEvent, Asking, RevertCalls;
      if fsm == StateIdle { return true; }
      finished := Transition(env, RevertCalls(env), StateIdle, false, saveOk, rounds);
    }
  }

  /** A request refused at one entry stays refused with the same outcome. */
  lemma {:induction false} RefusalStays(installed: map<string, StatusInfo>, infos: seq<UpdateInfo>, k: nat)
    requires k <= |infos|
    ensures Accepted(installed, infos[..k]).err.Some? ==> Accepted(installed, infos) == Accepted(installed, infos[..k])
    decreases |infos| - k
  {
    if k == |infos| {
      assert infos[..k] == infos;
    } else {
      RefusalStays(installed, infos, k + 1);
      assert infos[..k + 1][..k] == infos[..k];
    }
  }
}
