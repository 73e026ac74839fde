/** Which image the system writes for a request. */
module SystemImages {
  import opened Prelude
  import opened ComponentOperations
  import opened HandlerSpec
  import opened HandlerRuns
  import opened HandlerTransactions
  import opened UpdateModules
  import opened SystemRuns
  import DualPart
  import DualPartRuns
  import DualPartCalls

  /** What the request accepted at this step names as the image of the component. */
  function RequestedPath(l: SystemLabel, v: View<AnyModule>, id: string): string
    requires l.Runs? && l.event.Prepare? && id in Accepted(v.installed, l.event.infos).infos
  {
    l.out.path(Accepted(v.installed, l.event.infos).infos[id])
  }

  /** In prepared the module's record, in memory and in storage, holds the path of the request. */
  lemma PathPrepared(semver: Precedence, l: SystemLabel, v: View<AnyModule>, v': View<AnyModule>, id: string)
    requires SystemStep(semver, l, v, v') && Invariant(v)
    requires l.Runs? && l.event.Prepare? && v.fsm == StateIdle && v'.fsm == StatePrepared && id in v'.state.statuses
    requires id in v'.components && v'.components[id].updateModule.Dual?
    ensures id in Accepted(v.installed, l.event.infos).infos
    ensures DualPartCalls.PathIs(v'.components[id].updateModule.d, RequestedPath(l, v, id))
  {
    PreparedModules(EnvOf(l.out), semver, l.event.infos, l.saveOk, v, v', id);
    hide EventStep, Accepted, Invariant;
    var m := v.components[id].updateModule;
    assert (v'.components[id].updateModule, None)
        == PrepareOf(l.out, m, Accepted(v.installed, l.event.infos).infos[id]);
    if m.Dual? { DualPartCalls.PrepareExactly(m.d, RequestedPath(l, v, id), l.out.dual(m.d)); }
  }

  /** From one step on the handler has not been idle, so it acted on no request. */
  predicate NotIdle(views: seq<View<AnyModule>>, from: nat, to: nat)
    requires to <= |views|
  {
    forall m {:trigger views[m]} :: from <= m < to ==> views[m].fsm != StateIdle
  }

  /** While the handler is not idle no module is prepared. */
  lemma NothingRecorded(labels: seq<SystemLabel>, views: seq<View<AnyModule>>, j: nat, id: string,
                        states: seq<DualPartRuns.Run>, steps: seq<DualPartRuns.Step>, cuts: seq<nat>)
    requires j <= |labels| < |views| && RunOf(labels, views, j, id, states, steps, cuts) && NotIdle(views, 0, j)
    ensures |states| == |steps| + 1 && DualPartCalls.NoneRecords(states, steps, 0, |steps|)
  {
    RunEnds(labels, views, j, id, states, steps, cuts);
    hide MadeBy, DualPartRuns.Trace, DualPartCalls.Records;
    forall k {:trigger steps[k]} | 0 <= k < |steps| ensures !DualPartCalls.Records(states[k].d, steps[k]) {
      var i := LabelOf(cuts, j, k);
      assert GroupAt(labels, views, i, id, states, steps, cuts);
      PreparesInIdle(labels[i], views[i], id, states[k].d, steps[k]);
    }
  }

  lemma PreparesInIdle(l: SystemLabel, v: View<AnyModule>, id: string, d: DualPart.Dual, s: DualPartRuns.Step)
    requires MadeBy(l, v, id, d, s)
    ensures DualPartCalls.Records(d, s) ==> v.fsm == StateIdle
  {
  }

  /** The path stays while the handler is not idle, through failures, stops and restarts. */
  lemma PathHeld(semver: Precedence, labels: seq<SystemLabel>, views: seq<View<AnyModule>>, j: nat, id: string,
                 d0: DualPart.Dual, path: string)
    returns (d: DualPart.Dual)
    requires SystemRun(semver, labels, views) && Invariant(views[0]) && j < |views| && NotIdle(views, 0, j)
    requires Shows(views[0], id, d0) && DualPartCalls.PathIs(d0, path)
    ensures Shows(views[j], id, d) && DualPartCalls.PathIs(d, path)
  {
    hide SystemStep, Invariant, NotIdle, DualPartCalls.PathIs;
    var r := DualPartRuns.Run(d0, d0.contents[0], d0.contents[0], {});
    var states, steps, cuts := RunOfModule(semver, labels, views, j, id, r);
    RunEnds(labels, views, j, id, states, steps, cuts);
    NothingRecorded(labels, views, j, id, states, steps, cuts);
    hide RunOf, DualPartRuns.Trace;
    DualPartCalls.PathStaysOver(states, steps, 0, |steps|, path);
    d := Latest(states).d;
  }

  lemma SuffixRun(semver: Precedence, labels: seq<SystemLabel>, views: seq<View<AnyModule>>, i: nat, j: nat)
    requires SystemRun(semver, labels, views) && i <= j < |views| && NotIdle(views, i, j)
    ensures SystemRun(semver, labels[i..], views[i..]) && NotIdle(views[i..], 0, j - i)
    ensures views[i..][0] == views[i] && views[i..][j - i] == views[j]
  {
    hide SystemStep;
    forall k {:trigger labels[i..][k]} | 0 <= k < |labels[i..]|
      ensures SystemStep(semver, labels[i..][k], views[i..][k], views[i..][k + 1])
    {
      assert labels[i..][k] == labels[i + k];
    }
  }

  /** The event and the state before it lead to prepared with the component in the request. */
  predicate Prepares(l: SystemLabel, v: View<AnyModule>, v': View<AnyModule>, id: string) {
    && l.Runs? && l.event.Prepare? && v.fsm == StateIdle && v'.fsm == StatePrepared && id in v'.state.statuses
    && id in v'.components && v'.components[id].updateModule.Dual?
  }

  /** The request named the component, and the image at the path it named is in the slot that was written. */
  predicate WritesRequested(l: SystemLabel, v: View<AnyModule>, id: string, d: DualPart.Dual, io: DualPart.Io)
    requires l.Runs? && l.event.Prepare?
  {
    && id in Accepted(v.installed, l.event.infos).infos
    && DualPart.Update(d, io).0.contents[DualPart.Other(d.currentPartition)] == io.image(RequestedPath(l, v, id))
  }

  /** Over every run of the system, whatever fails and wherever it stops: if a request has led to prepared and the
      handler has not been idle since, an Update of a dual-partition module that asks for a reboot has written the image
      at the path the request named. */
  lemma RequestedImageIsWritten(semver: Precedence, labels: seq<SystemLabel>, views: seq<View<AnyModule>>, i: nat,
                                j: nat, id: string, io: DualPart.Io)
    requires SystemRun(semver, labels, views) && Invariant(views[0]) && i < j < |views|
    requires Prepares(labels[i], views[i], views[i + 1], id) && NotIdle(views, i + 1, j)
    ensures id in views[j].components && views[j].components[id].updateModule.Dual?
    ensures DualPart.Update(views[j].components[id].updateModule.d, io).1 == RebootRequired ==>
              WritesRequested(labels[i], views[i], id, views[j].components[id].updateModule.d, io)
  {
    hide SystemStep, Invariant, NotIdle, WritesRequested, Accepted, DualPart.Update;
    var d := RequestHeld(semver, labels, views, i, j, id);
    PathIsWritten(labels[i], views[i], id, d, io);
  }

  lemma StepAt(semver: Precedence, labels: seq<SystemLabel>, views: seq<View<AnyModule>>, i: nat)
    requires SystemRun(semver, labels, views) && i < |labels|
    ensures SystemStep(semver, labels[i], views[i], views[i + 1])
  {
    hide SystemStep;
  }

  /** The path of the request is still the one recorded. */
  lemma RequestHeld(semver: Precedence, labels: seq<SystemLabel>, views: seq<View<AnyModule>>, i: nat, j: nat,
                    id: string)
    returns (d: DualPart.Dual)
    requires SystemRun(semver, labels, views) && Invariant(views[0]) && i < j < |views|
    requires Prepares(labels[i], views[i], views[i + 1], id) && NotIdle(views, i + 1, j)
    ensures Shows(views[j], id, d) && id in Accepted(views[i].installed, labels[i].event.infos).infos
    ensures DualPartCalls.PathIs(d, RequestedPath(labels[i], views[i], id))
  {
    hide SystemStep, Invariant, NotIdle, DualPartCalls.PathIs, RequestedPath, Accepted;
    StepAt(semver, labels, views, i);
    hide SystemRun;
    HandlerInvariant(semver, labels, views, i);
    HandlerInvariant(semver, labels, views, i + 1);
    PathPrepared(semver, labels[i], views[i], views[i + 1], id);
    d := HeldSince(semver, labels, views, i + 1, j, id, views[i + 1].components[id].updateModule.d,
                   RequestedPath(labels[i], views[i], id));
  }

  lemma HeldSince(semver: Precedence, labels: seq<SystemLabel>, views: seq<View<AnyModule>>, i: nat, j: nat, id: string,
                  d0: DualPart.Dual, path: string)
    returns (d: DualPart.Dual)
    requires SystemRun(semver, labels, views) && i <= j < |views| && Invariant(views[i]) && NotIdle(views, i, j)
    requires Shows(views[i], id, d0) && DualPartCalls.PathIs(d0, path)
    ensures Shows(views[j], id, d) && DualPartCalls.PathIs(d, path)
  {
    SuffixRun(semver, labels, views, i, j);
    hide SystemStep, SystemRun, Invariant, NotIdle, Shows, DualPartCalls.PathIs;
    d := PathHeld(semver, labels[i..], views[i..], j - i, id, d0, path);
  }

  lemma PathIsWritten(l: SystemLabel, v: View<AnyModule>, id: string, d: DualPart.Dual, io: DualPart.Io)
    requires l.Runs? && l.event.Prepare? && id in Accepted(v.installed, l.event.infos).infos
    requires DualPartCalls.PathIs(d, RequestedPath(l, v, id))
    ensures DualPart.Update(d, io).1 == RebootRequired ==> WritesRequested(l, v, id, d, io)
  {
    hide Accepted;
    DualPartCalls.UpdateExactly(d, io);
  }
}
