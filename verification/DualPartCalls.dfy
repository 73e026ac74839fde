/** What every call of the dual-partition module does, field by field, and what follows over the calls and restarts of a
    request: which image an Update writes, and where a Revert leads. */
module DualPartCalls {
  import opened Prelude
  import opened EfiController
  import opened Firmware
  import opened DualPart
  import opened DualPartRuns

  // ---------------------------------------------------------------- one call

  /** Prepare is accepted exactly outside an update under way, with the image there and the record stored. It records
      the path and nothing but the record changes; refused before that it changes nothing. */
  lemma PrepareExactly(d: Dual, path: string, io: Io)
    ensures var (d', err) := DualPart.Prepare(d, path, io);
      && (err.None? <==> d.state.state != Updated && io.statOk && io.saveOk)
      && d' == d.(state := d'.state, stored := d'.stored)
      && (d.state.state != Updated && io.statOk ==> d'.state == Record(Prepared, d.state.updatePartition, path))
      && (d.state.state == Updated || !io.statOk ==> d'.state == d.state)
      && d'.stored == if err.None? then Some(d'.state) else d.stored
  {
  }

  /** Update asks for a reboot exactly if it has written, selected and recorded the slot that is not running, with the
      image at the recorded path. */
  lemma UpdateExactly(d: Dual, io: Io)
    ensures var (d', result) := DualPart.Update(d, io);
      var spare := Other(d.currentPartition);
      && (result == RebootRequired <==> d.state.state == Prepared && io.copyOk && io.bootOk && io.saveOk)
      && (result == Done <==>
            d.state.state == Updated && d.currentPartition == d.state.updatePartition && d.bootErr.None?)
      && (d.state.state != Prepared ==> d' == d)
      && (d.state.state == Prepared ==>
            && d'.contents[d.currentPartition] == d.contents[d.currentPartition]
            && d'.contents[spare] == (if io.copyOk then io.image(d.state.imagePath) else io.torn)
            && d'.vars == (if io.copyOk && io.bootOk then d.vars.(next := Some(d.items[spare])) else d.vars)
            && d'.state == Record(if io.copyOk && io.bootOk then Updated else Prepared, spare, d.state.imagePath)
            && d'.stored == (if result == RebootRequired then Some(d'.state) else d.stored)
            && (d'.currentPartition, d'.version, d'.bootErr, d'.items)
               == (d.currentPartition, d.version, d.bootErr, d.items))
  {
  }

  /** Revert fails exactly if a step of it does. It copies the other slot over the update's, selects the other slot for
      the next boot, and asks for that boot exactly if the update's slot is running. */
  lemma RevertExactly(d: Dual, io: Io)
    ensures var (d', result) := DualPart.Revert(d, io);
      var upd, other := d.state.updatePartition, Other(d.state.updatePartition);
      && (result.Failed? <==> d.state.state != Idle && !(io.copyOk && io.bootOk && io.saveOk))
      && (result == RebootRequired <==> !result.Failed? && d.state.state != Idle && d.currentPartition == upd)
      && (d.state.state == Idle ==> d' == d)
      && (d.state.state != Idle ==>
            && d'.contents[other] == d.contents[other]
            && d'.contents[upd] == (if io.copyOk then d.contents[other] else io.torn)
            && d'.vars == (if io.copyOk && io.bootOk then d.vars.(next := Some(d.items[other])) else d.vars)
            && d'.state == (if io.copyOk && io.bootOk then d.state.(state := Idle) else d.state)
            && d'.stored == (if result.Failed? then d.stored else Some(d'.state))
            && (d'.currentPartition, d'.version, d'.bootErr, d'.items)
               == (d.currentPartition, d.version, d.bootErr, d.items))
  {
  }

  /** Apply never asks for a reboot and touches no boot variable. It copies the update's slot over the other one, whose
      content the record does not depend on. */
  lemma ApplyExactly(d: Dual, io: Io)
    ensures var (d', result) := DualPart.Apply(d, io);
      var upd, other := d.state.updatePartition, Other(d.state.updatePartition);
      && (result == Done <==> d.state.state == Idle || (d.state.state == Updated && io.copyOk && io.saveOk))
      && result != RebootRequired
      && (d.state.state != Updated ==> d' == d)
      && (d.state.state == Updated ==>
            && d'.contents[upd] == d.contents[upd]
            && d'.contents[other] == (if io.copyOk then d.contents[upd] else io.torn)
            && d'.state == (if io.copyOk then d.state.(state := Idle) else d.state)
            && d'.stored == (if io.copyOk && io.saveOk then Some(d'.state) else d.stored)
            && (d'.vars, d'.currentPartition, d'.version, d'.bootErr, d'.items)
               == (d.vars, d.currentPartition, d.version, d.bootErr, d.items))
  {
  }

  /** Init keeps the boot error there is. */
  lemma InitKeepsBootErr(d: Dual, io: InitIo)
    ensures d.bootErr.Some? ==> DualPart.Init(d, io).0.bootErr == d.bootErr
  {
    hide BootOK, CurrentBoot, MainBoot;
  }

  // ---------------------------------------------------------------- where a Revert leads

  /** A Revert of an update under way that does not fail: if the slot it selects comes up in the next power cycle, that
      slot is running. If the new process gets as far as the record, it finds the update reverted, equal slots, and
      itself in the slot that was selected. */
  lemma RevertLeadsBack(d: Dual, io: Io, up: Up, initIo: InitIo)
    requires d.state.state != Idle && !DualPart.Revert(d, io).1.Failed? && d.items[0] != d.items[1]
    requires d.vars.order.Some? && d.items[Other(d.state.updatePartition)] in up
    requires Starts(DualPart.Revert(d, io).0, [up], initIo)
    ensures var reverted, other := DualPart.Revert(d, io).0, Other(d.state.updatePartition);
      && reverted.vars.next == Some(d.items[other])
      && PowerCycles(reverted.vars, [up]).current == Some(d.items[other])
      && PowerCycles(reverted.vars, [up]).next == None
      && (ReadsRecord(reverted, [up], initIo) ==>
            var back := Restarted(reverted, [up], initIo);
            back.currentPartition == other && back.state.state == Idle && SlotsEqual(back))
  {
    var reverted := DualPart.Revert(d, io).0;
    RevertExactly(d, io);
    TriedOnce(reverted.vars, [up]);
    CyclesConsumeOnlyBootNext(reverted.vars, [up]);
    AfterRestart(reverted, [up], initIo);
    SelectedSlot(d.items, Other(d.state.updatePartition));
    hide DualPart.Revert, Starts, Restarted, ReadsRecord, PowerCycles;
  }

  lemma SelectedSlot(items: Entries, slot: Slot)
    requires items[0] != items[1]
    ensures SlotOf(items, items[slot]) == slot
  {
    assert items[1..][0] == items[1];
  }

  // ---------------------------------------------------------------- which image is written

  /** The step is a Prepare that gets as far as recording its path. */
  predicate Records(d: Dual, step: Step) {
    step.Prepare? && d.state.state != Updated && step.io.statOk
  }

  /** The path a request was prepared with is the one in storage, and in memory unless no request is pending there. */
  predicate PathIs(d: Dual, path: string) {
    && d.stored.Some? && d.stored.value.imagePath == path
    && (d.state.state == Idle || d.state.imagePath == path)
  }

  lemma PathStays(d: Dual, step: Step, path: string)
    requires Possible(d, step) && PathIs(d, path) && !Records(d, step)
    ensures PathIs(NextDual(d, step), path)
  {
    match step
    case Prepare(p, io) => PrepareExactly(d, p, io);
    case Update(io) => UpdateExactly(d, io);
    case Revert(io) => RevertExactly(d, io);
    case Apply(io) => ApplyExactly(d, io);
    case Restart(boots, io) =>
      AfterRestart(d, boots, io);
      hide Restarted;
  }

  /** No Prepare records a path between the two steps. */
  ghost predicate NoneRecords(states: seq<Run>, steps: seq<Step>, from: nat, to: nat)
    requires |states| == |steps| + 1 && to <= |steps|
  {
    forall m {:trigger steps[m]} :: from <= m < to ==> !Records(states[m].d, steps[m])
  }

  lemma {:induction false} PathStaysOver(states: seq<Run>, steps: seq<Step>, from: nat, i: nat, path: string)
    requires Trace(states, steps) && from <= i <= |steps| && PathIs(states[from].d, path)
    requires NoneRecords(states, steps, from, i)
    ensures PathIs(states[i].d, path)
  {
    hide PathIs, Records, Next, Possible;
    if from < i {
      PathStaysOver(states, steps, from, i - 1, path);
      assert !Records(states[i - 1].d, steps[i - 1]);
      NextStep(states, steps, i - 1);
      PathStays(states[i - 1].d, steps[i - 1], path);
    }
  }

  lemma NextStep(states: seq<Run>, steps: seq<Step>, k: nat)
    requires Trace(states, steps) && k < |steps|
    ensures Possible(states[k].d, steps[k]) && states[k + 1].d == NextDual(states[k].d, steps[k])
  {
    hide NextDual, Possible;
    assert states[k + 1] == Next(states[k], steps[k]);
  }

  /** Over every run, whatever fails and however often it restarts: an Update that asks for a reboot has written the
      image at the path of the last Prepare that recorded one, if that Prepare was accepted. */
  lemma UpdateWritesPrepared(states: seq<Run>, steps: seq<Step>, k: nat, i: nat, io: Io)
    requires Trace(states, steps) && k < i <= |steps|
    requires steps[k].Prepare? && DualPartRuns.Result(states[k].d, steps[k]) == Done
    requires NoneRecords(states, steps, k + 1, i)
    requires DualPart.Update(states[i].d, io).1 == RebootRequired
    ensures var d := states[i].d;
      DualPart.Update(d, io).0.contents[Other(d.currentPartition)] == io.image(steps[k].imagePath)
  {
    NextStep(states, steps, k);
    PrepareExactly(states[k].d, steps[k].imagePath, steps[k].io);
    PathStaysOver(states, steps, k + 1, i, steps[k].imagePath);
    UpdateExactly(states[i].d, io);
  }

  /** A Prepare whose record cannot be stored fails; the path it was given is nevertheless the one an Update of the same
      process would write, in the place of the one prepared before. */
  lemma RefusedPathIsWritten(d: Dual, first: string, second: string, prepareIo: Io, failIo: Io, io: Io)
    requires d.state.state == Idle && prepareIo.statOk && prepareIo.saveOk && failIo.statOk && !failIo.saveOk
    requires io.copyOk && io.bootOk && io.saveOk
    ensures var prepared := DualPart.Prepare(d, first, prepareIo);
      var refused := DualPart.Prepare(prepared.0, second, failIo);
      var (updated, result) := DualPart.Update(refused.0, io);
      && prepared.1.None? && refused.1.Some? && result == RebootRequired
      && updated.contents[Other(d.currentPartition)] == io.image(second)
  {
    var prepared := DualPart.Prepare(d, first, prepareIo).0;
    PrepareExactly(d, first, prepareIo);
    PrepareExactly(prepared, second, failIo);
    UpdateExactly(DualPart.Prepare(prepared, second, failIo).0, io);
  }
}
