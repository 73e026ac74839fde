/** The update handler as a transition system: what each event may do to its in-memory and persisted state. */
module HandlerSpec {
  import opened Prelude
  import opened ComponentOperations
  import opened OperationLoop

  datatype UpdateState = StateIdle | StatePrepared | StateUpdated | StateFailed

  datatype UpdateInfo = UpdateInfo(id: string, componentType: string, version: string)

  /** The record the handler persists. */
  datatype HandlerState = HandlerState(
    updateState: UpdateState, error: Error, statuses: map<string, StatusInfo>, currentVersions: map<string, string>)

  const NEW_STATE := HandlerState(StateIdle, "", map[], map[])

  /** The modules and everything around them during one event: any functions at all. */
  datatype Env<!M> = Env(
    init: M -> Answer<M>,
    prepare: (M, UpdateInfo) -> (M, Option<Error>),
    update: M -> (M, CallResult),
    apply: M -> (M, CallResult),
    revert: M -> (M, CallResult),
    reboot: M -> (M, Option<Error>),
    version: M -> Result<string>,
    fetch: UpdateInfo -> Option<Error>,            // download and check of the image
    storeVersion: (string, nat) -> Option<Error>)  // storing a component's version after so many calls

  /** SemVer precedence, embedded in the reals; None for a string that is no valid version. */
  type Precedence = string -> Option<real>

  /** The handler's fields, with what the storage holds: the persisted record and the components' versions. */
  datatype View<M> = View(
    components: map<string, Component<M>>, installed: map<string, StatusInfo>, state: HandlerState, fsm: UpdateState,
    saved: HandlerState, versions: map<string, string>)

  datatype Event = Prepare(infos: seq<UpdateInfo>) | Update | Apply | Revert

  // ---------------------------------------------------------------- the operations of the events

  function ToResult(err: Option<Error>): CallResult {
    match err case None => Done case Some(e) => Failed(e)
  }

  /** An update is accepted only if both versions are valid and it raises the precedence. */
  function VerifySemver(semver: Precedence, current: string, update: string): Option<Error> {
    if semver(current).None? then Some("malformed version")
    else if semver(update).None? then Some("malformed version")
    else if semver(update).value < semver(current).value then Some("component version downgrade has been rejected")
    else if semver(update).value == semver(current).value then Some("component already has required version")
    else None
  }

  function PrepareComponent<M>(env: Env<M>, semver: Precedence, m: M, info: UpdateInfo): (M, Option<Error>) {
    match env.version(m)
    case Err(_) => (m, Some("current version is not set for module"))
    case Ok(current) =>
      match VerifySemver(semver, current, info.version)
      case Some(e) => (m, Some(e))
      case None =>
        match env.fetch(info)
        case Some(e) => (m, Some(e))
        case None => env.prepare(m, info)
  }

  function DoPrepare<M>(env: Env<M>, semver: Precedence, infos: map<string, UpdateInfo>, id: string, m: M): Answer<M> {
    if id !in infos then Answer(m, Failed("update info not found"), false)
    else var (m', err) := PrepareComponent(env, semver, m, infos[id]); Answer(m', ToResult(err), false)
  }

  /** An update that needs no further reboot has to report the requested version. */
  function DoUpdate<M>(env: Env<M>, version: string, m: M): Answer<M> {
    var (m', r) := env.update(m);
    if !r.Done? then Answer(m', r, false)
    else
      match env.version(m')
      case Err(e) => Answer(m', Failed(e), false)
      case Ok(v) => Answer(m', if v == version then Done else Failed("versions mismatch"), false)
  }

  function DoApply<M>(env: Env<M>, id: string, made: nat, m: M): Answer<M> {
    var (m', r) := env.apply(m);
    if r.Failed? then Answer(m', r, false)
    else
      match env.storeVersion(id, made)
      case Some(e) => Answer(m', Failed(e), false)
      case None => Answer(m', r, true)
  }

  function RebootOf<M>(env: Env<M>): M -> Answer<M> {
    m => var (m', err) := env.reboot(m); Answer(m', ToResult(err), false)
  }

  function PrepareCalls<M>(env: Env<M>, semver: Precedence, infos: map<string, UpdateInfo>): Calls<M> {
    Calls((id, version, made, m) => DoPrepare(env, semver, infos, id, m), RebootOf(env))
  }

  function UpdateCalls<M>(env: Env<M>): Calls<M> {
    Calls((id, version, made, m) => DoUpdate(env, version, m), RebootOf(env))
  }

  function ApplyCalls<M>(env: Env<M>): Calls<M> {
    Calls((id, version, made, m) => DoApply(env, id, made, m), RebootOf(env))
  }

  function RevertCalls<M>(env: Env<M>): Calls<M> {
    Calls((id, version, made, m) => var (m', r) := env.revert(m); Answer(m', r, false), RebootOf(env))
  }

  // ---------------------------------------------------------------- operating on the pending components

  function Lookup<V>(m: map<string, V>, id: string): Option<V> {
    if id in m then Some(m[id]) else None
  }

  /** The components of the request as the loop finds them. */
  function Entries<M>(v: View<M>): map<string, Entry<M>> {
    map id | id in v.state.statuses :: Entry(Lookup(v.components, id), v.state.statuses[id], [], Lookup(v.versions, id))
  }

  /** The handler with the modules, statuses and stored versions the loop left. */
  function Absorb<M>(v: View<M>, entries: map<string, Entry<M>>): View<M> {
    v.(components := map id | id in v.components ::
         if id in entries && entries[id].component.Some? then entries[id].component.value else v.components[id],
       state := v.state.(statuses := map id | id in entries :: entries[id].status),
       versions := map id | id in v.versions.Keys + entries.Keys && (id in entries ==> entries[id].stored.Some?) ::
         if id in entries then entries[id].stored.value else v.versions[id])
  }

  ghost predicate Operation<M(!new)>(calls: Calls<M>, stopOnError: bool, v: View<M>, v': View<M>, err: Option<Error>) {
    exists entries :: Outcome(calls, stopOnError, Entries(v), entries, err) && v' == Absorb(v, entries)
  }

  // ---------------------------------------------------------------- settling

  function ReportedVersion<M>(env: Env<M>, v: View<M>, id: string): string
    requires id in v.components
  {
    if v.state.updateState == StateIdle || id !in v.state.currentVersions
    then match env.version(v.components[id].updateModule) case Ok(s) => s case Err(_) => ""
    else v.state.currentVersions[id]
  }

  function GetVersions<M>(env: Env<M>, v: View<M>): View<M> {
    v.(installed := map id | id in v.installed ::
         if id in v.components then v.installed[id].(version := ReportedVersion(env, v, id)) else v.installed[id])
  }

  function OnlyErrors(statuses: map<string, StatusInfo>): map<string, StatusInfo> {
    map id | id in statuses && statuses[id].status == InError :: statuses[id]
  }

  /** What follows every transition: on return to idle the versions are read again and only errors are kept; the
      record is saved, and a failed save leads to failed. */
  function Settle<M>(env: Env<M>, v: View<M>, saveOk: bool): View<M> {
    var v1 := v.(state := v.state.(updateState := v.fsm));
    var v2 := if v1.fsm != StateIdle then v1
              else var g := GetVersions(env, v1); g.(state := g.state.(statuses := OnlyErrors(g.state.statuses)));
    if saveOk then v2.(saved := v2.state)
    else v2.(state := v2.state.(error := if v2.state.error == "" then "save failed" else v2.state.error,
                                updateState := StateFailed),
             fsm := StateFailed)
  }

  function Entering<M>(v: View<M>, next: UpdateState): View<M> {
    v.(fsm := next, state := v.state.(error := ""))
  }

  /** An error of prepare or update leads to failed; one of apply or revert is only recorded. */
  function Recorded<M>(v: View<M>, err: Option<Error>, fails: bool): View<M> {
    match err
    case None => v
    case Some(e) => v.(state := v.state.(error := e), fsm := if fails then StateFailed else v.fsm)
  }

  // ---------------------------------------------------------------- accepting a request

  datatype Acceptance = Acceptance(
    statuses: map<string, StatusInfo>, versions: map<string, string>, infos: map<string, UpdateInfo>,
        err: Option<Error>)

  /** The request entry by entry: each has to name an installed component that is not in error. */
  function Accepted(installed: map<string, StatusInfo>, infos: seq<UpdateInfo>): Acceptance {
    if infos == [] then Acceptance(map[], map[], map[], None)
    else
      var a, info := Accepted(installed, infos[..|infos| - 1]), infos[|infos| - 1];
      if a.err.Some? then a
      else if info.id !in installed then a.(err := Some("component is not installed"))
      else if installed[info.id].status == InError then a.(err := Some(installed[info.id].error))
      else Acceptance(a.statuses[info.id := StatusInfo(info.componentType, info.version, Installing, "")],
                      a.versions[info.id := installed[info.id].version],
                      a.infos[info.id := info], None)
  }

  function Requested<M>(v: View<M>, a: Acceptance): View<M> {
    v.(state := v.state.(statuses := a.statuses, currentVersions := a.versions))
  }

  // ---------------------------------------------------------------- events

  predicate Enabled(fsm: UpdateState, event: Event) {
    match event
    case Prepare(_) => fsm == StateIdle
    case Update => fsm == StatePrepared
    case Apply => fsm == StateUpdated
    case Revert => fsm != StateIdle
  }

  ghost predicate PrepareEvent<M(!new)>(env: Env<M>, semver: Precedence, infos: seq<UpdateInfo>, saveOk: bool,
                                        v: View<M>, v': View<M>) {
    var a := Accepted(v.installed, infos);
    var v0 := Requested(Entering(v, StatePrepared), a);
    var refusal := if infos == [] then Some("prepare component list is empty") else a.err;
    if refusal.Some? then v' == Settle(env, Recorded(v0, refusal, true), saveOk)
    else exists v1, err :: Operation(PrepareCalls(env, semver, a.infos), true, v0, v1, err)
                        && v' == Settle(env, Recorded(v1, err, true), saveOk)
  }

  ghost predicate OperationEvent<M(!new)>(env: Env<M>, calls: Calls<M>, next: UpdateState, fails: bool, saveOk: bool,
                                          v: View<M>, v': View<M>) {
    exists v1, err :: Operation(calls, fails, Entering(v, next), v1, err) &&
        v' == Settle(env, Recorded(v1, err, fails), saveOk)
  }

  /** What one event does; an event the present state does not allow changes nothing. */
  ghost predicate EventStep<M(!new)>(env: Env<M>, semver: Precedence, event: Event, saveOk: bool, v: View<M>,
                                     v': View<M>) {
    if !Enabled(v.fsm, event) then v' == v
    else
      match event
      case Prepare(infos) => PrepareEvent(env, semver, infos, saveOk, v, v')
      case Update => OperationEvent(env, UpdateCalls(env), StateUpdated, true, saveOk, v, v')
      case Apply => OperationEvent(env, ApplyCalls(env), StateIdle, false, saveOk, v, v')
      case Revert => OperationEvent(env, RevertCalls(env), StateIdle, false, saveOk, v, v')
  }

  // ---------------------------------------------------------------- restart

  /** A new process over the same storage: the record is read back and the modules are initialised. */
  ghost predicate Started<M(!new)>(env: Env<M>, saved: HandlerState, v': View<M>) {
    && v'.state == saved && v'.saved == saved && v'.fsm == saved.updateState
    && v'.installed.Keys == v'.components.Keys
    && forall id :: id in v'.components ==> v'.installed[id].version == ReportedVersion(env, v', id)
  }

  /** The process stops between two events or within one and starts again. Modules may be in any state by then; the
      version of a component may have been stored if an apply was under way. */
  ghost predicate RestartStep<M(!new)>(env: Env<M>, v: View<M>, v': View<M>) {
    && Started(env, v.saved, v')
    && v'.components.Keys == v.components.Keys
    && v.versions.Keys <= v'.versions.Keys
    && forall id :: id in v'.versions ==>
         || (id in v.versions && v'.versions[id] == v.versions[id])
         || (v.fsm == StateUpdated && id in v.state.statuses && v'.versions[id] == v.state.statuses[id].version)
  }
}
