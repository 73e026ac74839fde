/** What the handler's calls answer and what it reports of an event: its error and the components' versions. */
module HandlerReports {
  import opened Prelude
  import opened ComponentOperations
  import opened OperationLoop
  import opened HandlerSpec
  import opened HandlerRuns
  import opened HandlerTransactions

  // ---------------------------------------------------------------- the calls of an event

  /** Preparing never asks for a reboot. It succeeds exactly if the module does, for an image in order and a version
      that raises the module's; before that the module is not touched. */
  lemma PrepareAnswers<M(!new)>(env: Env<M>, semver: Precedence, infos: map<string, UpdateInfo>, id: string,
                                version: string, made: nat, m: M)
    ensures var answer := PrepareCalls(env, semver, infos).operate(id, version, made, m);
      && answer.result != RebootRequired && !answer.stores
      && (answer.result == Done <==> id in infos && Ready(env, semver, m, infos[id]))
      && (id in infos && Higher(env, semver, m, infos[id].version) && env.fetch(infos[id]).None? ==>
            answer.next == env.prepare(m, infos[id]).0)
      && (id !in infos || !Higher(env, semver, m, infos[id].version) || env.fetch(infos[id]).Some? ==>
            answer.next == m)
  {
  }

  /** Updating succeeds exactly if the module does and then reports the requested version; requests for a reboot and
      errors of the module are passed on. */
  lemma UpdateAnswers<M(!new)>(env: Env<M>, id: string, version: string, made: nat, m: M)
    ensures var answer := UpdateCalls(env).operate(id, version, made, m);
      && answer.next == env.update(m).0 && !answer.stores
      && (answer.result == RebootRequired <==> env.update(m).1 == RebootRequired)
      && (answer.result == Done <==> env.update(m).1 == Done && env.version(answer.next) == Ok(version))
      && (env.update(m).1.Failed? ==> answer.result == env.update(m).1)
  {
  }

  /** Applying stores the version exactly if the module has not failed and storing has not; then the module's answer is
      passed on, a request for a reboot included. */
  lemma ApplyAnswers<M(!new)>(env: Env<M>, id: string, version: string, made: nat, m: M)
    ensures var answer := ApplyCalls(env).operate(id, version, made, m);
      && answer.next == env.apply(m).0
      && (answer.stores <==> !env.apply(m).1.Failed? && env.storeVersion(id, made).None?)
      && (answer.stores ==> answer.result == env.apply(m).1)
      && (!answer.stores ==>
            answer.result == if env.apply(m).1.Failed? then env.apply(m).1
                             else Failed(env.storeVersion(id, made).value))
  {
  }

  lemma RevertAnswers<M(!new)>(env: Env<M>, id: string, version: string, made: nat, m: M)
    ensures var answer := RevertCalls(env).operate(id, version, made, m);
      (answer.next, answer.result) == env.revert(m) && !answer.stores
  {
  }

  /** A reboot never asks for another one, and its error is the module's, in every event. */
  lemma RebootAnswers<M(!new)>(env: Env<M>, semver: Precedence, infos: map<string, UpdateInfo>, m: M)
    ensures var err := env.reboot(m).1;
      var answer := Answer(env.reboot(m).0, if err.Some? then Failed(err.value) else Done, false);
      && PrepareCalls(env, semver, infos).reboot(m) == answer && UpdateCalls(env).reboot(m) == answer
      && ApplyCalls(env).reboot(m) == answer && RevertCalls(env).reboot(m) == answer
  {
    var answer := RebootOf(env)(m);
    assert answer.next == env.reboot(m).0 && answer.result == ToResult(env.reboot(m).1) && !answer.stores;
  }

  // ---------------------------------------------------------------- what an operation leaves in the handler

  /** The handler takes over what the operation did to the components of the request, and nothing else changes. */
  lemma AbsorbTakes<M(!new)>(v: View<M>, entries: map<string, Entry<M>>)
    requires entries.Keys == v.state.statuses.Keys
    ensures var v' := Absorb(v, entries);
      && v'.components.Keys == v.components.Keys && v'.state.statuses.Keys == entries.Keys
      && (forall id :: id in entries ==> v'.state.statuses[id] == entries[id].status)
      && (forall id :: id in entries && id in v.components && entries[id].component.Some? ==>
            v'.components[id] == entries[id].component.value)
      && (forall id :: id in v.components && (id !in entries || entries[id].component.None?) ==>
            v'.components[id] == v.components[id])
      && (forall id :: Lookup(v'.versions, id) == if id in entries then entries[id].stored else Lookup(v.versions, id))
      && v' == v.(components := v'.components, versions := v'.versions,
                  state := v.state.(statuses := v'.state.statuses))
  {
    var v' := Absorb(v, entries);
    assert v'.components == Absorb(v, entries).components;
  }

  /** Settling keeps the first error there is, and the record it replaces if it cannot be saved. On return to idle, and
      only then, the modules' own versions are read, and of the request only errors are kept. */
  lemma SettleReports<M(!new)>(env: Env<M>, v: View<M>, saveOk: bool)
    requires v.installed.Keys <= v.components.Keys
    ensures var v' := Settle(env, v, saveOk);
      && v'.components == v.components && v'.versions == v.versions && v'.installed.Keys == v.installed.Keys
      && v'.fsm == v'.state.updateState == (if saveOk then v.fsm else StateFailed)
      && v'.saved == (if saveOk then v'.state else v.saved)
      && v'.state.error == (if saveOk || v.state.error != "" then v.state.error else "save failed")
      && v'.state.currentVersions == v.state.currentVersions
      && (v.fsm != StateIdle ==> v'.installed == v.installed && v'.state.statuses == v.state.statuses)
      && (v.fsm == StateIdle ==>
            && (forall id :: id in v'.state.statuses
                        <==> id in v.state.statuses && v.state.statuses[id].status == InError)
            && (forall id :: id in v'.state.statuses ==> v'.state.statuses[id] == v.state.statuses[id])
            && (forall id :: id in v.installed ==>
                  v'.installed[id] == v.installed[id].(version := OwnVersion(env, v.components[id].updateModule))))
  {
  }

  /** What a module reports; nothing if it cannot. */
  function OwnVersion<M>(env: Env<M>, m: M): string {
    if env.version(m).Ok? then env.version(m).value else ""
  }

  /** A new process reports the captured version of the components of an open transaction and the module's own of all
      others. */
  lemma StartReports<M(!new)>(env: Env<M>, saved: HandlerState, v: View<M>, id: string)
    requires Started(env, saved, v) && id in v.components
    ensures id in v.installed
    ensures v.installed[id].version == if saved.updateState != StateIdle && id in saved.currentVersions
                                       then saved.currentVersions[id]
                                       else OwnVersion(env, v.components[id].updateModule)
  {
  }

  // ---------------------------------------------------------------- the error of an event

  /** The error an event leaves: of the operation if it had one, else of saving the record if that failed, else none. */
  function ErrorLeft(err: Option<Error>, saveOk: bool): Error {
    if err.Some? && err.value != "" then err.value else if saveOk then "" else "save failed"
  }

  /** What an event reports that had the operation run from v: the error it leaves and the state. The operation's error
      is that of the call that failed in the first round with a failure, at its highest failing priority; with it, an
      operation that stops on errors has made the calls of that round down to that priority and none after them. */
  ghost predicate Reports<M(!new)>(calls: Calls<M>, next: UpdateState, fails: bool, saveOk: bool, v: View<M>,
                                   v': View<M>, entries: map<string, Entry<M>>, err: Option<Error>)
  {
    && v'.state.error == ErrorLeft(err, saveOk)
    && v'.fsm == (if !saveOk || (fails && err.Some?) then StateFailed else next)
    && AllReached(calls, Entries(v), entries) && (err.Some? <==> SomeCallFailed(entries))
    && (err.Some? ==> Told(fails, Entries(v), entries, err.value))
    && v'.components.Keys == v.components.Keys
    && forall id :: id in entries && id in v.components ==> entries[id].component == Some(v'.components[id])
  }

  /** An event replaces the error of the one before by its own. */
  lemma EventTells<M(!new)>(env: Env<M>, calls: Calls<M>, next: UpdateState, fails: bool, saveOk: bool, v: View<M>,
                            v': View<M>)
    returns (entries: map<string, Entry<M>>, err: Option<Error>)
    requires OperationEvent(env, calls, next, fails, saveOk, v, v') && PendingConfigured(v)
    ensures Reports(calls, next, fails, saveOk, v, v', entries, err)
  {
    hide Operation, Settle, Recorded, AllReached, Told, SomeCallFailed;
    var v1: View<M>;
    v1, err :| Operation(calls, fails, Entering(v, next), v1, err) &&
      v' == Settle(env, Recorded(v1, err, fails), saveOk);
    entries := OperationTells(env, calls, next, fails, saveOk, Entering(v, next), v1, err);
    assert Entries(Entering(v, next)) == Entries(v);
  }

  lemma OperationTells<M(!new)>(env: Env<M>, calls: Calls<M>, next: UpdateState, fails: bool, saveOk: bool, v: View<M>,
                                v1: View<M>, err: Option<Error>)
    returns (entries: map<string, Entry<M>>)
    requires Operation(calls, fails, v, v1, err) && PendingConfigured(v) && v.state.error == "" && v.fsm == next
    ensures Reports(calls, next, fails, saveOk, v, Settle(env, Recorded(v1, err, fails), saveOk), entries, err)
  {
    hide Outcome, AllReached, Told, SomeCallFailed;
    entries :| Outcome(calls, fails, Entries(v), entries, err) && v1 == Absorb(v, entries);
    NoneMissingOf(v);
    OutcomeTells(calls, fails, Entries(v), entries, err);
    SettleTells(env, v1, err, fails, saveOk);
  }

  /** A refused request leads to failed and tells why: it is empty, or the component of the first entry that is not
      acceptable is not installed or has the error told. No module has been called; what was accepted before that entry
      stays recorded. */
  lemma RefusedRequest<M(!new)>(env: Env<M>, semver: Precedence, infos: seq<UpdateInfo>, saveOk: bool, v: View<M>,
                                v': View<M>)
    requires EventStep(env, semver, Prepare(infos), saveOk, v, v') && v.fsm == StateIdle
    requires infos == [] || RecordedEntries(v.installed, infos) < |infos|
    ensures v'.fsm == StateFailed && v'.components == v.components && v'.versions == v.versions
    ensures v'.installed == v.installed
    ensures v'.state.error == ErrorLeft(Some(Refusal(v.installed, infos)), saveOk)
    ensures v'.state.statuses == Accepted(v.installed, infos).statuses
    ensures v'.state.currentVersions == Accepted(v.installed, infos).versions
  {
    RefusedEntry(v.installed, infos);
    RefusedSettles(env, v, Accepted(v.installed, infos), Refusal(v.installed, infos), saveOk);
    hide Accepted, Operation, Settle, Recorded, Requested, Entering, Acceptable, ErrorLeft;
  }

  lemma RefusedSettles<M(!new)>(env: Env<M>, v: View<M>, a: Acceptance, refusal: Error, saveOk: bool)
    ensures var v' := Settle(env, Recorded(Requested(Entering(v, StatePrepared), a), Some(refusal), true), saveOk);
      && v'.fsm == StateFailed && v'.components == v.components && v'.versions == v.versions
      && v'.installed == v.installed && v'.state.error == ErrorLeft(Some(refusal), saveOk)
      && v'.state.statuses == a.statuses && v'.state.currentVersions == a.versions
  {
  }

  function Refusal(installed: map<string, StatusInfo>, infos: seq<UpdateInfo>): Error
    requires infos == [] || RecordedEntries(installed, infos) < |infos|
  {
    if infos == [] then "prepare component list is empty"
    else
      var refused := infos[RecordedEntries(installed, infos)].id;
      if refused in installed then installed[refused].error else "component is not installed"
  }

  /** Any other request has its components prepared, and reports as other events do. */
  lemma RequestTells<M(!new)>(env: Env<M>, semver: Precedence, infos: seq<UpdateInfo>, saveOk: bool, v: View<M>,
                              v': View<M>)
    returns (a: Acceptance, entries: map<string, Entry<M>>, err: Option<Error>)
    requires EventStep(env, semver, Prepare(infos), saveOk, v, v') && v.fsm == StateIdle
    requires infos != [] && RecordedEntries(v.installed, infos) == |infos| && v.installed.Keys == v.components.Keys
    ensures a == Accepted(v.installed, infos) && a.statuses.Keys == a.infos.Keys <= v.installed.Keys
    ensures Reports(PrepareCalls(env, semver, a.infos), StatePrepared, true, saveOk,
                    Requested(Entering(v, StatePrepared), a), v', entries, err)
  {
    RefusedEntry(v.installed, infos);
    AcceptedAreInstalled(v.installed, infos);
    hide Accepted, Operation, Settle, Recorded, Reports;
    a := Accepted(v.installed, infos);
    var v0, v1 := Requested(Entering(v, StatePrepared), a), v;
    v1, err :| Operation(PrepareCalls(env, semver, a.infos), true, v0, v1, err) &&
      v' == Settle(env, Recorded(v1, err, true), saveOk);
    entries := OperationTells(env, PrepareCalls(env, semver, a.infos), StatePrepared, true, saveOk, v0, v1, err);
  }

  lemma SettleTells<M(!new)>(env: Env<M>, v: View<M>, err: Option<Error>, fails: bool, saveOk: bool)
    requires v.state.error == ""
    ensures var v' := Settle(env, Recorded(v, err, fails), saveOk);
      && v'.state.error == ErrorLeft(err, saveOk) && v'.components == v.components
      && v'.fsm == (if !saveOk || (fails && err.Some?) then StateFailed else v.fsm)
  {
  }

  lemma NoneMissingOf<M(!new)>(v: View<M>)
    requires PendingConfigured(v)
    ensures !AnyMissing(Entries(v))
  {
  }

  lemma OutcomeTells<M(!new)>(calls: Calls<M>, stopOnError: bool, entries: map<string, Entry<M>>,
                              entries': map<string, Entry<M>>, err: Option<Error>)
    requires Outcome(calls, stopOnError, entries, entries', err) && !AnyMissing(entries)
    ensures AllReached(calls, entries, entries') && (err.Some? <==> SomeCallFailed(entries'))
    ensures err.Some? ==> Told(stopOnError, entries, entries', err.value)
    ensures entries'.Keys == entries.Keys
    ensures forall id :: id in entries ==> entries'[id].component.Some?
  {
    hide Told, SomeCallFailed;
  }

  // ---------------------------------------------------------------- the bookkeeping of a request

  /** The entry names an installed component that is not in error. */
  predicate Acceptable(installed: map<string, StatusInfo>, info: UpdateInfo) {
    info.id in installed && installed[info.id].status != InError
  }

  /** How many entries of a request are recorded: all, or those before the first that is not acceptable. */
  function RecordedEntries(installed: map<string, StatusInfo>, infos: seq<UpdateInfo>): (n: nat)
    ensures n <= |infos| && (forall i :: 0 <= i < n ==> Acceptable(installed, infos[i]))
    ensures n < |infos| ==> !Acceptable(installed, infos[n])
  {
    if infos == [] then 0
    else
      var n := RecordedEntries(installed, infos[..|infos| - 1]);
      if n == |infos| - 1 && Acceptable(installed, infos[n]) then n + 1 else n
  }

  /** Of several entries for a component the last one recorded counts. */
  predicate LastFor(infos: seq<UpdateInfo>, n: nat, i: nat)
    requires n <= |infos|
  {
    i < n && forall j :: i < j < n ==> infos[j].id != infos[i].id
  }

  /** A refusal tells the error of the first entry that is not acceptable: the component's own, or that it is not
      installed. */
  lemma {:induction false} RefusedEntry(installed: map<string, StatusInfo>, infos: seq<UpdateInfo>)
    ensures var n := RecordedEntries(installed, infos);
      Accepted(installed, infos).err == if n == |infos| then None
                                        else if infos[n].id in installed then Some(installed[infos[n].id].error)
                                        else Some("component is not installed")
  {
    if infos != [] { RefusedEntry(installed, infos[..|infos| - 1]); }
  }

  /** Exactly the components of the recorded entries, each as its last entry asks. */
  ghost predicate RecordsLast(installed: map<string, StatusInfo>, a: Acceptance, infos: seq<UpdateInfo>, n: nat)
    requires n <= |infos|
  {
    && (forall i: nat :: LastFor(infos, n, i) ==> RecordsEntry(installed, a, infos[i]))
    && forall id :: id in a.infos ==> exists i: nat :: LastFor(infos, n, i) && infos[i].id == id
  }

  lemma LastForFront(infos: seq<UpdateInfo>, n: nat, i: nat)
    requires n < |infos| && i < n
    ensures LastFor(infos[..|infos| - 1], n, i) <==> LastFor(infos, n, i)
    ensures LastFor(infos, n + 1, i) <==> LastFor(infos, n, i) && infos[i].id != infos[n].id
  {
    var front := infos[..|infos| - 1];
    assert forall j :: 0 <= j < n ==> front[j] == infos[j];
  }

  lemma RecordsOneMore(installed: map<string, StatusInfo>, a: Acceptance, infos: seq<UpdateInfo>, n: nat,
                       a': Acceptance)
    requires |infos| == n + 1 && Acceptable(installed, infos[n]) && RecordsLast(installed, a, infos[..n], n)
    requires a'.infos == a.infos[infos[n].id := infos[n]]
    requires a'.statuses
          == a.statuses[infos[n].id := StatusInfo(infos[n].componentType, infos[n].version, Installing, "")]
    requires a'.versions == a.versions[infos[n].id := installed[infos[n].id].version]
    ensures RecordsLast(installed, a', infos, n + 1)
  {
    forall i: nat | LastFor(infos, n + 1, i) ensures RecordsEntry(installed, a', infos[i]) {
      if i < n {
        LastForFront(infos, n, i);
        assert infos[..n][i] == infos[i];
      }
    }
    forall id | id in a'.infos ensures exists i: nat :: LastFor(infos, n + 1, i) && infos[i].id == id {
      if id == infos[n].id {
        assert LastFor(infos, n + 1, n);
      } else {
        var i: nat :| LastFor(infos[..n], n, i) && infos[..n][i].id == id;
        LastForFront(infos, n, i);
        assert LastFor(infos, n + 1, i);
      }
    }
  }

  lemma RecordsAsBefore(installed: map<string, StatusInfo>, a: Acceptance, infos: seq<UpdateInfo>, n: nat,
                        a': Acceptance)
    requires n < |infos| && RecordsLast(installed, a, infos[..|infos| - 1], n)
    requires a' == a.(err := a'.err)
    ensures RecordsLast(installed, a', infos, n)
  {
    var front := infos[..|infos| - 1];
    forall i: nat | LastFor(infos, n, i) ensures RecordsEntry(installed, a', infos[i]) {
      LastForFront(infos, n, i);
      assert front[i] == infos[i] && RecordsEntry(installed, a, front[i]);
    }
    forall id | id in a'.infos ensures exists i: nat :: LastFor(infos, n, i) && infos[i].id == id {
      var i: nat :| LastFor(front, n, i) && front[i].id == id;
      LastForFront(infos, n, i);
      assert LastFor(infos, n, i);
    }
  }

  /** The components of the request are installing the requested version of the given type; their reported versions are
      captured. */
  lemma {:induction false} AcceptedEntries(installed: map<string, StatusInfo>, infos: seq<UpdateInfo>)
    ensures RecordsLast(installed, Accepted(installed, infos), infos, RecordedEntries(installed, infos))
  {
    if infos != [] {
      hide RecordsLast, LastFor;
      var front := infos[..|infos| - 1];
      AcceptedEntries(installed, front);
      RefusedEntry(installed, front);
      var a, n, a' := Accepted(installed, front), RecordedEntries(installed, front), Accepted(installed, infos);
      if n == |front| && Acceptable(installed, infos[n]) {
        RecordsOneMore(installed, a, infos, n, a');
      } else {
        RecordsAsBefore(installed, a, infos, n, a');
      }
    }
  }

  predicate RecordsEntry(installed: map<string, StatusInfo>, a: Acceptance, info: UpdateInfo) {
    && info.id in a.infos && a.infos[info.id] == info
    && info.id in a.statuses && a.statuses[info.id] == StatusInfo(info.componentType, info.version, Installing, "")
    && info.id in a.versions && info.id in installed && a.versions[info.id] == installed[info.id].version
  }
}
