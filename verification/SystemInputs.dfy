/** Concrete runs of handler objects in which a property fails that one might expect to hold always. */
module SystemInputs {
  import opened Prelude
  import opened EfiController
  import opened ComponentOperations
  import opened OperationLoop
  import opened HandlerSpec
  import opened HandlerRuns
  import opened HandlerTransactions
  import opened UpdateHandler
  import opened UpdateModules
  import opened SystemRuns
  import DualPart
  import DualPartRuns
  import Overlay

  const ID := "rootfs"
  const OLD := DualPartRuns.IMAGE_A  // 1.0.0
  const NEW := DualPartRuns.IMAGE_B  // 2.0.0

  const PENDING := StatusInfo("rootfs", "2.0.0", Installing, "")
  const UPDATED := HandlerState(StateUpdated, "", map[ID := PENDING], map[ID := "1.0.0"])

  function Answering(init: DualPart.InitIo): Outside {
    Outside(d => DualPartRuns.COPIED, d => init, o => Overlay.Io(true, {}, true, true, true, true, None),
            m => None, info => "image", info => None, info => None, (id, made) => None)
  }

  /** A handler in updated trusts a module that takes itself to be idle to have applied the update. */
  lemma IdleIsTrusted(out: Outside, semver: Precedence, v: View<AnyModule>, v': View<AnyModule>, id: string,
                      d: DualPart.Dual)
    requires Invariant(v) && v.fsm == StateUpdated && EventStep(EnvOf(out), semver, Apply, true, v, v')
    requires id in v.state.statuses && v.state.statuses[id].status != InError && out.store(id, 0).None?
    requires v.components[id].updateModule == Dual(d) && d.state.state == DualPart.Idle
    ensures v'.fsm == StateIdle && id !in v'.state.statuses
    ensures id in v'.versions && v'.versions[id] == v.state.statuses[id].version
    ensures id in v'.components && v'.components[id].updateModule == Dual(d)
    ensures Invariant(v') && (v.installed[id].status != InError ==> v'.installed[id].status != InError)
  {
    StepKeepsInvariant(semver, Happens(EnvOf(out), Apply, true), v, v');
    StatusesStay(EnvOf(out), ApplyCalls(EnvOf(out)), StateIdle, false, true, v, v', id);
    assert EnvOf(out).apply(Dual(d)) == (Dual(d), Done);
    ApplyOnce(EnvOf(out), semver, true, v, v', id);
    AppliedIsStored(EnvOf(out), semver, true, v, v', id);
    EventReachesTarget(EnvOf(out), semver, Apply, true, v, v');
  }

  /** A process starts in updated with the given module, whose Init leaves it idle, and is given ApplyUpdate. */
  method ApplyOverIdle(created: DualPart.Dual, out: Outside, semver: Precedence) returns (h: Handler<AnyModule>)
    requires DualPart.Init(created, out.dualInit(created)).0.state.state == DualPart.Idle && out.store(ID, 0).None?
    ensures fresh(h) && h.Valid() && Invariant(h.Now()) && h.fsm == StateIdle && ID !in h.state.statuses
    ensures ID in h.versions && h.versions[ID] == "2.0.0"
    ensures ID in h.components && h.components[ID].updateModule == Dual(DualPart.Init(created, out.dualInit(created)).0)
    ensures DualPart.Init(created, out.dualInit(created)).1.None? ==> Accepting(h.Now())
  {
    hide EventStep, RanksDrop, Asking, DualPart.Init;
    var components := map[ID := Component(Dual(created), 0, 0)];
    h := new Handler(EnvOf(out), components, map[ID := "rootfs"], Some(UPDATED), map[ID := "1.0.0"]);
    ghost var v := h.Now();
    assert EnvOf(out).init(Dual(created)).next == Dual(DualPart.Init(created, out.dualInit(created)).0);
    assert Invariant(v);
    var finished := h.ApplyUpdate(EnvOf(out), semver, true, 2);
    ApplyRanksDrop(out);
    NotAsking(ApplyCalls(EnvOf(out)), Entering(v, StateIdle), h.Now(), m => ApplyRank(m), 1);
    IdleIsTrusted(out, semver, v, h.Now(), ID, DualPart.Init(created, out.dualInit(created)).0);
  }

  const TRIAL := DualPart.Dual([OLD, NEW], EfiVars(Some([2, 1]), None, Some(2)), [1, 2],
                               Some(DualPart.Record(DualPart.Updated, 1, "image")), DualPart.NEW_RECORD, 0, "", None)

  /** The storage does not answer when the module reads its record: the handler ends in idle without an error and with
      the new version stored, but the image is in one slot only, and the stored record still has the update pending. */
  method ImageNotCopied(semver: Precedence) returns (h: Handler<AnyModule>)
    ensures h.Valid() && h.fsm == StateIdle && ID !in h.state.statuses
    ensures ID in h.versions && h.versions[ID] == "2.0.0"
    ensures ID in h.components && h.components[ID].updateModule.Dual?
    ensures h.components[ID].updateModule.d.contents == [OLD, NEW] &&
            h.components[ID].updateModule.d.stored == TRIAL.stored
  {
    var unread := DualPart.InitIo(true, true, false, None);
    InitOfTrial();
    h := ApplyOverIdle(TRIAL, Answering(unread), semver);
  }

  lemma InitOfTrial()
    ensures var d := DualPart.Init(TRIAL, DualPart.InitIo(true, true, false, None)).0;
      d.state.state == DualPart.Idle && d.contents == TRIAL.contents && d.stored == TRIAL.stored
  {
    DualPartRuns.CreatedInits(TRIAL, DualPart.InitIo(true, true, false, None));
  }

  const REVERTED := TRIAL.(contents := [OLD, OLD], stored := Some(DualPart.Record(DualPart.Idle, 1, "image")))

  /** A process stopped during a Revert, after the module had reverted and before the handler had stored that: the new
      one is in updated again, and ApplyUpdate stores the new version for a component that holds the old image. */
  method RevertForgotten(semver: Precedence) returns (h: Handler<AnyModule>)
    ensures fresh(h) && h.Valid() && Invariant(h.Now()) && h.fsm == StateIdle && ID !in h.state.statuses
    ensures ID in h.versions && h.versions[ID] == "2.0.0" && Accepting(h.Now())
    ensures ID in h.components && h.components[ID].updateModule.Dual?
    ensures var d := h.components[ID].updateModule.d;
      d.contents == [OLD, OLD] && d.state.state == DualPart.Idle && d.version == "1.0.0"
  {
    InitOfReverted();
    hide DualPart.Init;
    h := ApplyOverIdle(REVERTED, Answering(DualPartRuns.ANSWERS), semver);
  }

  lemma InitOfReverted()
    ensures var (d, err) := DualPart.Init(REVERTED, DualPartRuns.ANSWERS);
      && err.None? && d.contents == REVERTED.contents
      && d.state.state == DualPart.Idle && d.version == "1.0.0"
  {
    assert IndexOf([2, 1], 2) == Some(0) && IndexOf([1, 2], 2) == Some(1);
    DualPartRuns.CreatedInits(REVERTED, DualPartRuns.ANSWERS);
  }

  /** After that a request below the stored version is prepared. */
  method ForgottenVersionPasses(semver: Precedence) returns (h: Handler<AnyModule>)
    requires semver("1.0.0") == Some(1.0) && semver("1.7.0") == Some(1.7) && semver("2.0.0") == Some(2.0)
    ensures h.Valid() && h.fsm == StatePrepared && ID in h.versions && h.versions[ID] == "2.0.0"
    ensures ID in h.state.statuses && h.state.statuses[ID].version == "1.7.0"
    ensures !PendingRaises(semver, h.Now())
  {
    h := RevertForgotten(semver);
    RequestBelow(semver, h, h.components[ID].updateModule.d);
  }

  const LOWER := DualPart.Image(Some("1.5.0"), [])
  const REFUSED := DualPart.Dual([NEW, LOWER], EfiVars(Some([2, 1]), None, Some(2)), [1, 2],
                                 Some(DualPart.Record(DualPart.Updated, 1, "image")), DualPart.NEW_RECORD, 0, "", None)
  const REVERT_RECORD := DualPart.Record(DualPart.Idle, 1, "image")
  const STALE := REFUSED.(contents := [NEW, NEW], vars := REFUSED.vars.(next := Some(1)), currentPartition := 1,
                          version := "1.5.0", state := REVERT_RECORD, stored := Some(REVERT_RECORD))
  const FAILED := HandlerState(StateFailed, "versions mismatch",
                               map[ID := StatusInfo("rootfs", "3.0.0", InError, "versions mismatch")],
                               map[ID := "2.0.0"])
  const REQUEST := UpdateInfo(ID, "rootfs", "1.7.0")

  lemma InitOfRefused()
    ensures DualPart.Init(REFUSED, DualPartRuns.ANSWERS)
         == (REFUSED.(state := REFUSED.stored.value, currentPartition := 1, version := "1.5.0"), None)
  {
    assert IndexOf([2, 1], 2) == Some(0) && IndexOf([1, 2], 2) == Some(1);
  }

  lemma RevertOfRefused(d: DualPart.Dual)
    requires d == DualPart.Init(REFUSED, DualPartRuns.ANSWERS).0
    ensures DualPart.Revert(d, DualPartRuns.COPIED) == (STALE, RebootRequired)
  {
    InitOfRefused();
    hide DualPart.Init;
    assert [NEW, LOWER][1 := NEW] == [NEW, NEW];
  }

  lemma RequestAccepted(v: View<AnyModule>)
    requires ID in v.installed && v.installed[ID].status != InError
    ensures Accepted(v.installed, [REQUEST]).err.None?
    ensures Accepted(v.installed, [REQUEST]).infos == map[ID := REQUEST]
  {
    assert [REQUEST][..0] == [] && Accepted(v.installed, []).err.None?;
  }

  lemma IdleIsReady(out: Outside, semver: Precedence, d: DualPart.Dual)
    requires out == Answering(DualPartRuns.ANSWERS) && d.state.state == DualPart.Idle
    requires semver(d.version).Some? && semver(d.version).value < 1.7 && semver("1.7.0") == Some(1.7)
    ensures Ready(EnvOf(out), semver, Dual(d), REQUEST)
  {
    assert EnvOf(out).prepare(Dual(d), REQUEST).1.None?;
  }

  /** What the handler accepts of an idle module that reports a lower version. */
  lemma LowerIsPrepared(out: Outside, semver: Precedence, v: View<AnyModule>, v': View<AnyModule>, d: DualPart.Dual)
    requires out == Answering(DualPartRuns.ANSWERS) && d.state.state == DualPart.Idle
    requires semver(d.version).Some? && semver(d.version).value < 1.7 && semver("1.7.0") == Some(1.7)
    requires Invariant(v) && v.fsm == StateIdle && EventStep(EnvOf(out), semver, Prepare([REQUEST]), true, v, v')
    requires ID in v.components && v.components[ID].updateModule == Dual(d) && Accepting(v)
    ensures v'.fsm == StatePrepared && ID in v'.state.statuses && v'.state.statuses[ID].version == "1.7.0"
  {
    RequestAccepted(v);
    IdleIsReady(out, semver, d);
    hide Accepted, Ready;
    PreparedIff(EnvOf(out), semver, [REQUEST], true, v, v');
    PreparedIsHigher(EnvOf(out), semver, [REQUEST], true, v, v');
    PrepareCaptures(EnvOf(out), semver, [REQUEST], v, v');
  }

  /** An update to an image of a lower version than requested is refused and reverted while its slot runs, and the
      reboot the revert asks for does not happen: the module goes on reporting the version of the reverted image, and a
      request between that and the stored version is prepared. */
  method StaleVersionPasses(semver: Precedence) returns (h: Handler<AnyModule>)
    requires semver("1.5.0") == Some(1.5) && semver("1.7.0") == Some(1.7) && semver("2.0.0") == Some(2.0)
    ensures h.Valid() && h.fsm == StatePrepared && ID in h.versions && h.versions[ID] == "2.0.0"
    ensures ID in h.state.statuses && h.state.statuses[ID].version == "1.7.0"
    ensures !PendingRaises(semver, h.Now())
  {
    h := RevertRefused(Answering(DualPartRuns.ANSWERS), semver);
    RequestBelow(semver, h, STALE);
  }

  /** A request above what the module reports and below what is stored. */
  method RequestBelow(semver: Precedence, h: Handler<AnyModule>, ghost d: DualPart.Dual)
    requires h.Valid() && Invariant(h.Now()) && h.fsm == StateIdle && ID in h.versions && h.versions[ID] == "2.0.0"
    requires ID in h.components && h.components[ID].updateModule == Dual(d) && Accepting(h.Now())
    requires d.state.state == DualPart.Idle && semver(d.version).Some? && semver(d.version).value < 1.7
    requires semver("1.7.0") == Some(1.7) && semver("2.0.0") == Some(2.0)
    modifies h
    ensures h.Valid() && h.fsm == StatePrepared && ID in h.versions && h.versions[ID] == "2.0.0"
    ensures ID in h.state.statuses && h.state.statuses[ID].version == "1.7.0"
    ensures !PendingRaises(semver, h.Now())
  {
    hide EventStep, Invariant;
    var out := Answering(DualPartRuns.ANSWERS);
    ghost var v := h.Now();
    h.PrepareUpdate(EnvOf(out), semver, [REQUEST], true);
    LowerIsPrepared(out, semver, v, h.Now(), d);
    PrepareStoresNothing(EnvOf(out), semver, [REQUEST], true, v, h.Now());
    StepKeepsInvariant(semver, Happens(EnvOf(out), Prepare([REQUEST]), true), v, h.Now());
  }

  predicate Accepting(v: View<AnyModule>) {
    ID in v.installed && v.installed[ID].status != InError
  }

  method RevertRefused(out: Outside, semver: Precedence) returns (h: Handler<AnyModule>)
    requires out == Answering(DualPartRuns.ANSWERS)
    ensures fresh(h) && h.Valid() && Invariant(h.Now()) && h.fsm == StateIdle && h.versions == map[ID := "2.0.0"]
    ensures ID in h.components && h.components[ID].updateModule == Dual(STALE)
    ensures ID in h.componentStatuses && h.componentStatuses[ID].status != InError
  {
    hide EventStep, RanksDrop, Asking, DualPart.Init, DualPart.Revert;
    var components := map[ID := Component(Dual(REFUSED), 0, 0)];
    h := new Handler(EnvOf(out), components, map[ID := "rootfs"], Some(FAILED), map[ID := "2.0.0"]);
    ghost var v := h.Now();
    ghost var d := DualPart.Init(REFUSED, DualPartRuns.ANSWERS).0;
    InitOfRefused();
    assert EnvOf(out).init(Dual(REFUSED)) == Answer(Dual(d), Done, false);
    var finished := h.RevertUpdate(EnvOf(out), semver, true, 2);
    RevertRanksDrop(out);
    NotAsking(RevertCalls(EnvOf(out)), Entering(v, StateIdle), h.Now(), m => RevertRank(m), 1);
    RevertOfRefused(d);
    AfterRefusal(out, semver, v, h.Now(), d);
  }

  lemma AfterRefusal(out: Outside, semver: Precedence, v: View<AnyModule>, v': View<AnyModule>, d: DualPart.Dual)
    requires out == Answering(DualPartRuns.ANSWERS) && Invariant(v) && v.fsm == StateFailed &&
             v.versions == map[ID := "2.0.0"]
    requires EventStep(EnvOf(out), semver, Revert, true, v, v') && ID in v.state.statuses && ID in v.components
    requires v.components[ID].updateModule == Dual(d) &&
             DualPart.Revert(d, DualPartRuns.COPIED) == (STALE, RebootRequired)
    requires v.installed[ID].status != InError
    ensures Invariant(v') && v'.fsm == StateIdle && v'.versions == v.versions
    ensures ID in v'.components && v'.components[ID].updateModule == Dual(STALE)
    ensures ID in v'.installed && v'.installed[ID].status != InError
  {
    assert OperationEvent(EnvOf(out), RevertCalls(EnvOf(out)), StateIdle, false, true, v, v');
    StepKeepsInvariant(semver, Happens(EnvOf(out), Revert, true), v, v');
    EventReachesTarget(EnvOf(out), semver, Revert, true, v, v');
    hide EventStep, OperationEvent, DualPart.Revert, Invariant;
    RevertedBy(out, true, v, v', ID, d);
    assert ID in v.installed;
    StatusesStay(EnvOf(out), RevertCalls(EnvOf(out)), StateIdle, false, true, v, v', ID);
    var v1, err := InsideEvent(EnvOf(out), RevertCalls(EnvOf(out)), StateIdle, false, true, v, v');
    CallsNeverStore(EnvOf(out), semver, map[]);
    StoresNothing(RevertCalls(EnvOf(out)), false, Entering(v, StateIdle), v1, err);
  }
}
