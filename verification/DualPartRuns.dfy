/** What the dual-partition module keeps over whole runs: module calls with any outcome, and restarts with any
    firmware behaviour, in any order. */
module DualPartRuns {
  import opened Prelude
  import opened BootOrder
  import opened EfiController
  import opened BootOrderLaws
  import opened Firmware
  import opened DualPart

  datatype Step =
    | Prepare(imagePath: string, io: Io)
    | Update(io: Io)
    | Revert(io: Io)
    | Apply(io: Io)
      // power cycles, none if only the process restarts; a new process comes up in the last one
    | Restart(boots: seq<Up>, initIo: InitIo)

  /** A state of a run, with its history: the content a rollback has to bring back, the image written last, and the
      boot entries whose software has reached Init. */
  datatype Run = Run(d: Dual, committed: Image, staged: Image, reached: set<u16>)

  function Booted(d: Dual, boots: seq<Up>): Dual {
    d.(vars := PowerCycles(d.vars, boots))
  }

  /** Whether a process comes up: the controller it creates has to get through the check of the boot order. */
  predicate Starts(d: Dual, boots: seq<Up>, io: InitIo) {
    Created(Booted(d, boots), io.checkOk).Some?
  }

  function Restarted(d: Dual, boots: seq<Up>, io: InitIo): Dual {
    match Started(Booted(d, boots), io)
    case Some(started) => started
    case None => Fresh(Booted(d, boots))
  }

  /** A restart without a process is no step: what follows can only be another restart. */
  predicate Possible(d: Dual, step: Step) {
    step.Restart? ==> Starts(d, step.boots, step.initIo)
  }

  function Result(d: Dual, step: Step): CallResult {
    match step
    case Prepare(path, io) =>
      (match DualPart.Prepare(d, path, io).1 case None => Done case Some(e) => Failed(e))
    case Update(io) => DualPart.Update(d, io).1
    case Revert(io) => DualPart.Revert(d, io).1
    case Apply(io) => DualPart.Apply(d, io).1
    case Restart(_, _) => Done
  }

  function NextDual(d: Dual, step: Step): Dual {
    match step
    case Prepare(path, io) => DualPart.Prepare(d, path, io).0
    case Update(io) => DualPart.Update(d, io).0
    case Revert(io) => DualPart.Revert(d, io).0
    case Apply(io) => DualPart.Apply(d, io).0
    case Restart(boots, io) => Restarted(d, boots, io)
  }

  /** Apply commits the moment its copy is complete, even when recording that fails. */
  predicate Commits(d: Dual, step: Step) {
    step.Apply? && d.state.state == Updated && step.io.copyOk
  }

  function Next(r: Run, step: Step): Run {
    var d := NextDual(r.d, step);
    var current := d.vars.current;
    Run(d,
        if Commits(r.d, step) then r.d.contents[r.d.state.updatePartition] else r.committed,
        if step.Update? && r.d.state.state == Prepared && step.io.copyOk then step.io.image(r.d.state.imagePath)
        else r.staged,
        if step.Restart? && current.Some? then r.reached + {current.value} else r.reached)
  }

  /** The states a sequence of steps goes through. */
  ghost predicate Trace(states: seq<Run>, steps: seq<Step>) {
    && |states| == |steps| + 1
    && forall k {:trigger steps[k]} :: 0 <= k < |steps| ==>
         Possible(states[k].d, steps[k]) && states[k + 1] == Next(states[k], steps[k])
  }

  // ---------------------------------------------------------------- what a new process finds

  function RecordOf(d: Dual): Record {
    if d.stored.Some? then d.stored.value else NEW_RECORD
  }

  /** Whether Init gets as far as reading the record: BootCurrent can be read, the running entry is at the front of
      the checked order, can be put there or is none of the module's, and the storage answers. */
  predicate ReadsRecord(d: Dual, boots: seq<Up>, io: InitIo) {
    d.vars.order.Some? && CanRead(CheckedVars(d, boots), d.items, io)
  }

  function CheckedVars(d: Dual, boots: seq<Up>): EfiVars
    requires d.vars.order.Some?
  {
    PowerCycles(d.vars, boots).(order := Some(Checked(d.vars.order.value, d.items)))
  }

  predicate CanRead(vars: EfiVars, items: Entries, io: InitIo) {
    && io.loadOk && vars.order.Some? && vars.current.Some?
    && (io.writeOk || vars.current.value !in items || [vars.current.value] <= vars.order.value)
  }

  function SlotOf(items: Entries, current: u16): Slot {
    match IndexOf(items, current) case Some(i) => i case None => 0
  }

  /** The version is the running slot's, or empty, which it is only with a boot error. */
  predicate ReadsVersion(d: Dual) {
    && (d.bootErr.None? ==> d.contents[d.currentPartition].version == Some(d.version))
    && (d.version == "" || d.contents[d.currentPartition].version == Some(d.version))
  }

  /** A process comes up exactly when the boot order can be read, its check stays in bounds, and the order needs no
      rewriting or can be rewritten. */
  lemma StartsExactly(d: Dual, boots: seq<Up>, io: InitIo)
    ensures Starts(d, boots, io)
       <==> d.vars.order.Some? && !(d.vars.order.value < Normalised(d.vars.order.value, d.items))
            && (io.checkOk || IsNormal(d.vars.order.value, d.items))
    ensures Starts(d, boots, io) ==>
              Created(Booted(d, boots), io.checkOk)
              == Some(Fresh(d.(vars := CheckedVars(d, boots))))
  {
    CyclesConsumeOnlyBootNext(d.vars, boots);
  }

  /** Confirming the boot over a checked order. */
  lemma BootOKExactly(vars: EfiVars, items: Entries, writeOk: bool)
    requires vars.order.Some? && vars.order.value != [] && vars.order.value[0] in items
    requires forall x :: x in items ==> x in vars.order.value
    ensures var (vars', err) := BootOK(vars, items, writeOk);
      && vars'.current == vars.current && vars'.next == vars.next
      && (err.None? <==>
            vars.current.Some? &&
            (writeOk || vars.current.value !in items || vars.current.value == vars.order.value[0]))
      && vars'.order == Some(if err.None? && vars.current.value in items
                             then Promoted(vars.order.value, vars.current.value) else vars.order.value)
      && vars'.order.value != [] && vars'.order.value[0] in items
      && (err.None? && vars.current.value in items ==> vars'.order.value[0] == vars.current.value)
      && (err.Some? || vars.current.value !in items ==> vars' == vars)
  {
    if vars.current.Some? && vars.current.value in items {
      var i := IndexOf(vars.order.value, vars.current.value).value;
      assert i == 0 ==> Promoted(vars.order.value, vars.current.value) == vars.order.value;
    }
  }

  /** Init on a created module, from where the boot is confirmed on. */
  lemma LoadedExactly(d: Dual, io: InitIo, okErr: Option<Error>, current: Result<Slot>, main: Result<nat>)
    requires d.bootErr.None?
    ensures var (d', err) := Loaded(d, io, okErr, current, main);
      && d'.contents == d.contents && d'.stored == d.stored && d'.items == d.items && d'.vars == d.vars
      && d'.state == (if okErr.None? && current.Ok? && main.Ok? && io.loadOk && d.stored.Some? then d.stored.value
                      else d.state)
      && (okErr.None? && current.Ok? ==> d'.currentPartition == current.value)
      && (d'.bootErr.None? ==> okErr.None? && current.Ok? && main.Ok? && io.loadOk)
      && (okErr.None? && current.Ok? && main.Ok? && io.loadOk ==>
            (d'.bootErr.None? <==> d.contents[current.value].version.Some? && io.check.None?))
      && (d.version == "" ==> ReadsVersion(d'))
      && (if err.Some? then d'.bootErr == err
          else d'.bootErr == io.check && d'.contents[d'.currentPartition].version == Some(d'.version))
  {
  }

  /** What a new process is in. Slots and stored record are as they were; the record in memory is the stored one
      exactly when Init reads it; the running slot is known unless there is a boot error. */
  lemma AfterRestart(d: Dual, boots: seq<Up>, io: InitIo)
    requires Starts(d, boots, io)
    ensures var d', vars := Restarted(d, boots, io), PowerCycles(d.vars, boots);
      && d'.contents == d.contents && d'.stored == d.stored && d'.items == d.items
      && d'.state == (if ReadsRecord(d, boots, io) then RecordOf(d) else NEW_RECORD)
      && d'.vars.current == vars.current && d'.vars.next == vars.next
      && Known(d')
      && (ReadsRecord(d, boots, io) ==>
            && d'.currentPartition == SlotOf(d.items, vars.current.value)
            && (d'.bootErr.None? <==> d.contents[d'.currentPartition].version.Some? && io.check.None?))
      && ReadsVersion(d')
  {
    StartsExactly(d, boots, io);
    RestartedInits(d, boots, io);
    CyclesConsumeOnlyBootNext(d.vars, boots);
    CheckedOrder(d.vars.order.value, d.items);
    hide Starts, Restarted, DualPart.Created, Init, BootOK, PowerCycles, Known, Checked, CanRead;
    CreatedInits(Fresh(d.(vars := CheckedVars(d, boots))), io);
  }

  lemma RestartedInits(d: Dual, boots: seq<Up>, io: InitIo)
    requires Starts(d, boots, io)
    ensures DualPart.Created(Booted(d, boots), io.checkOk).Some?
    ensures Restarted(d, boots, io) == Init(DualPart.Created(Booted(d, boots), io.checkOk).value, io).0
  {
    hide Init, OrderCheck;
  }

  lemma CreatedInits(d: Dual, io: InitIo)
    requires d.vars.order.Some? && d.vars.order.value != [] && d.vars.order.value[0] in d.items
    requires (forall x :: x in d.items ==> x in d.vars.order.value) && Fresh(d) == d
    ensures var d' := Init(d, io).0;
      var canRead := CanRead(d.vars, d.items, io);
      && d'.contents == d.contents && d'.stored == d.stored && d'.items == d.items
      && d'.vars == BootOK(d.vars, d.items, io.writeOk).0
      && d'.vars.current == d.vars.current && d'.vars.next == d.vars.next
      && d'.state == (if canRead then RecordOf(d) else NEW_RECORD)
      && Known(d')
      && (canRead ==> d'.currentPartition == SlotOf(d.items, d.vars.current.value))
      && (canRead ==> (d'.bootErr.None? <==> d.contents[d'.currentPartition].version.Some? && io.check.None?))
      && ReadsVersion(d')
  {
    BootOKExactly(d.vars, d.items, io.writeOk);
    var (vars, okErr) := BootOK(d.vars, d.items, io.writeOk);
    LoadedExactly(d.(vars := vars), io, okErr, CurrentBoot(vars, d.items), MainBoot(vars, d.items));
    hide BootOK, Loaded;
  }

  // ---------------------------------------------------------------- rollback

  /** The slot a revert copies from holds the committed content; with nothing pending both slots do. */
  predicate Rollbackable(r: Run) {
    && r.d.contents[Other(r.d.state.updatePartition)] == r.committed
    && (r.d.state.state == Idle ==> r.d.contents[r.d.state.updatePartition] == r.committed)
  }

  predicate SlotsEqual(d: Dual) {
    d.contents[0] == d.contents[1]
  }

  /** What has to hold before a step for the committed content to stay recoverable. */
  predicate Benign(d: Dual, step: Step) {
    match step
    case Prepare(_, _) => true
    case Revert(_) => true
    // the slot that is about to be overwritten is not the only good one
    case Update(_) =>
      d.state.state == Prepared ==> d.contents[d.currentPartition] == d.contents[Other(d.state.updatePartition)]
    // a failed copy has not touched its destination
    case Apply(io) =>
      d.state.state == Updated && !io.copyOk ==> io.torn == d.contents[Other(d.state.updatePartition)]
    // Init will read a record that names the slot that was written
    case Restart(boots, io) =>
      || SlotsEqual(d)
      || (ReadsRecord(d, boots, io) && RecordOf(d).state != Idle &&
          RecordOf(d).updatePartition == d.state.updatePartition)
  }

  ghost predicate AllBenign(states: seq<Run>, steps: seq<Step>)
    requires |states| == |steps| + 1
  {
    forall k {:trigger steps[k]} :: 0 <= k < |steps| ==> Benign(states[k].d, steps[k])
  }

  /** A step keeps the committed content recoverable exactly when it is benign. */
  lemma BenignExactly(r: Run, step: Step)
    requires Rollbackable(r) && Possible(r.d, step)
    ensures Rollbackable(Next(r, step)) <==> Benign(r.d, step)
  {
    match step
    case Prepare(_, _) =>
    case Update(io) => UpdateExactly(r, io);
    case Revert(io) => RevertStaysRollbackable(r, io);
    case Apply(io) => ApplyExactly(r, io);
    case Restart(boots, io) =>
      AfterRestart(r.d, boots, io);
      RestartExactly(r, Restarted(r.d, boots, io).state);
  }

  lemma UpdateExactly(r: Run, io: Io)
    requires Rollbackable(r)
    ensures Rollbackable(Next(r, Update(io))) <==> Benign(r.d, Update(io))
  {
  }

  lemma RevertStaysRollbackable(r: Run, io: Io)
    requires Rollbackable(r)
    ensures Rollbackable(Next(r, Revert(io)))
  {
  }

  lemma ApplyExactly(r: Run, io: Io)
    requires Rollbackable(r)
    ensures Rollbackable(Next(r, Apply(io))) <==> Benign(r.d, Apply(io))
  {
  }

  lemma RestartExactly(r: Run, loaded: Record)
    requires Rollbackable(r)
    ensures Rollbackable(r.(d := r.d.(state := loaded)))
       <==> SlotsEqual(r.d) || (loaded.state != Idle && loaded.updatePartition == r.d.state.updatePartition)
  {
  }

  lemma {:induction false} RunStaysRollbackable(states: seq<Run>, steps: seq<Step>, i: nat)
    requires Trace(states, steps) && Rollbackable(states[0]) && AllBenign(states, steps) && i < |states|
    ensures Rollbackable(states[i])
  {
    hide Next, Possible, Rollbackable, Benign;
    if i > 0 {
      RunStaysRollbackable(states, steps, i - 1);
      BenignExactly(states[i - 1], steps[i - 1]);
    }
  }

  ghost predicate NeverCommits(states: seq<Run>, steps: seq<Step>)
    requires |states| == |steps| + 1
  {
    forall k {:trigger steps[k]} :: 0 <= k < |steps| ==> !Commits(states[k].d, steps[k])
  }

  lemma {:induction false} CommittedOnlyByApply(states: seq<Run>, steps: seq<Step>, i: nat)
    requires Trace(states, steps) && NeverCommits(states, steps) && i < |states|
    ensures states[i].committed == states[0].committed
  {
    if i > 0 {
      CommittedOnlyByApply(states, steps, i - 1);
      assert !Commits(states[i - 1].d, steps[i - 1]);
    }
  }

  /** From equal slots, whatever happened since short of a commit, a revert that completes restores both. */
  lemma RevertRestores(states: seq<Run>, steps: seq<Step>, i: nat, io: Io)
    requires Trace(states, steps) && AllBenign(states, steps) && NeverCommits(states, steps) && i < |states|
    requires states[0].d.contents == [states[0].committed, states[0].committed]
    requires !DualPart.Revert(states[i].d, io).1.Failed?
    ensures DualPart.Revert(states[i].d, io).0.contents == [states[0].committed, states[0].committed]
    ensures DualPart.Revert(states[i].d, io).0.state.state == Idle
  {
    RunStaysRollbackable(states, steps, i);
    CommittedOnlyByApply(states, steps, i);
    RevertCopies(states[i], io);
  }

  lemma RevertCopies(r: Run, io: Io)
    requires Rollbackable(r) && !DualPart.Revert(r.d, io).1.Failed?
    ensures DualPart.Revert(r.d, io).0.contents == [r.committed, r.committed]
    ensures DualPart.Revert(r.d, io).0.state.state == Idle
  {
  }

  // ---------------------------------------------------------------- runs of calls that succeed or do no harm

  /** Memory and storage agree as far as an update is under way. */
  predicate Coherent(d: Dual) {
    d.state.state == Updated || RecordOf(d).state == Updated ==> d.state == RecordOf(d)
  }

  /** What each module state means for the slots. */
  predicate Settled(r: Run) {
    var upd := r.d.state.updatePartition;
    && Coherent(r.d)
    && r.d.contents[Other(upd)] == r.committed
    && r.d.contents[upd] == if r.d.state.state == Updated then r.staged else r.committed
  }

  /** A call succeeds, or fails having changed neither slots nor storage nor whether an update is under way. */
  predicate Harmless(d: Dual, step: Step) {
    var d' := NextDual(d, step);
    || !Result(d, step).Failed?
    || (d'.contents == d.contents && d'.stored == d.stored
        && (d'.state == d.state || (d.state.state != Updated && d'.state.state != Updated)))
  }

  /** Calls are harmless; a restart while an update is under way reads the record. */
  predicate Succeeds(d: Dual, step: Step) {
    match step
    case Restart(boots, io) => ReadsRecord(d, boots, io) || RecordOf(d).state != Updated
    case _ => Harmless(d, step)
  }

  ghost predicate AllSucceed(states: seq<Run>, steps: seq<Step>)
    requires |states| == |steps| + 1
  {
    forall k {:trigger steps[k]} :: 0 <= k < |steps| ==> Succeeds(states[k].d, steps[k])
  }

  lemma SuccessKeepsSettled(r: Run, step: Step)
    requires Settled(r) && Possible(r.d, step) && Succeeds(r.d, step)
    ensures Settled(Next(r, step))
  {
    match step
    case Restart(boots, io) =>
      AfterRestart(r.d, boots, io);
      RestartKeepsSettled(r, step, Restarted(r.d, boots, io));
    case _ =>
      if Result(r.d, step).Failed? {
        HarmlessKeepsSettled(r, step);
      } else {
        CallKeepsSettled(r, step);
      }
  }

  lemma RestartKeepsSettled(r: Run, step: Step, d: Dual)
    requires Settled(r) && step.Restart? && d == NextDual(r.d, step)
    requires d.contents == r.d.contents && d.stored == r.d.stored
    requires d.state == RecordOf(r.d) || (d.state == NEW_RECORD && RecordOf(r.d).state != Updated)
    ensures Settled(Next(r, step))
  {
    hide Restarted;
  }

  lemma HarmlessKeepsSettled(r: Run, step: Step)
    requires Settled(r) && !step.Restart? && Harmless(r.d, step) && Result(r.d, step).Failed?
    ensures Settled(Next(r, step))
  {
  }

  lemma CallKeepsSettled(r: Run, step: Step)
    requires Settled(r) && !step.Restart? && !Result(r.d, step).Failed?
    ensures Settled(Next(r, step))
  {
    match step
    case Prepare(_, _) =>
    case Update(_) =>
    case Revert(_) =>
    case Apply(_) =>
  }

  /** Idle or prepared: both slots hold the committed content. Updated: the update slot holds the image written
      last, the other one the committed content. */
  lemma {:induction false} SettledAlways(states: seq<Run>, steps: seq<Step>, i: nat)
    requires Trace(states, steps) && Settled(states[0]) && AllSucceed(states, steps) && i < |states|
    ensures Settled(states[i])
  {
    hide Next, Possible, Settled, Succeeds;
    if i > 0 {
      SettledAlways(states, steps, i - 1);
      SuccessKeepsSettled(states[i - 1], steps[i - 1]);
    }
  }

  /** A completed Apply leaves the new image in both slots, a completed Revert the committed content. */
  lemma OutcomeOfTransaction(states: seq<Run>, steps: seq<Step>, i: nat, io: Io)
    requires Trace(states, steps) && Settled(states[0]) && AllSucceed(states, steps) && i < |states|
    ensures var now := states[i];
      var (applied, a) := DualPart.Apply(now.d, io);
      var (reverted, v) := DualPart.Revert(now.d, io);
      && (now.d.state.state == Updated && a == Done ==> applied.contents == [now.staged, now.staged])
      && (!v.Failed? ==> reverted.contents == [now.committed, now.committed])
  {
    var now := states[i];
    SettledAlways(states, steps, i);
    if !DualPart.Revert(now.d, io).1.Failed? {
      RevertCopies(now, io);
    }
    if now.d.state.state == Updated && DualPart.Apply(now.d, io).1 == Done {
      ApplyCopies(now, io);
    }
  }

  lemma ApplyCopies(r: Run, io: Io)
    requires Settled(r) && r.d.state.state == Updated && DualPart.Apply(r.d, io).1 == Done
    ensures DualPart.Apply(r.d, io).0.contents == [r.staged, r.staged]
  {
  }

  /** After a restart without a boot error and with no update under way, the version reported is the committed
      content's. */
  lemma ReportsCommitted(states: seq<Run>, steps: seq<Step>, i: nat)
    requires Trace(states, steps) && Settled(states[0]) && AllSucceed(states, steps)
    requires i < |steps| && steps[i].Restart?
    requires states[i + 1].d.state.state != Updated && states[i + 1].d.bootErr.None?
    ensures Some(states[i + 1].d.version) == states[i + 1].committed.version
  {
    SettledAlways(states, steps, i + 1);
    AfterRestart(states[i].d, steps[i].boots, steps[i].initIo);
    assert states[i + 1].d == Restarted(states[i].d, steps[i].boots, steps[i].initIo);
    NotUpdatedIsCommitted(states[i + 1], states[i + 1].d.currentPartition);
  }

  lemma NotUpdatedIsCommitted(r: Run, slot: Slot)
    requires Settled(r) && r.d.state.state != Updated
    ensures r.d.contents[slot] == r.committed
  {
    assert slot == r.d.state.updatePartition || slot == Other(r.d.state.updatePartition);
  }

  // ---------------------------------------------------------------- the window inside Update

  /** The index of the slot being written is recorded only at the end of Update. When Update stops after the image
      was written and before that, and a new process reads the record, a revert restores the committed content exactly
      when the stored record is a prepared one that happens to name that slot already (or the image was no change). */
  lemma CrashInsideUpdate(r: Run, io: Io, boots: seq<Up>, initIo: InitIo, revertIo: Io)
    requires Settled(r) && r.d.state.state == Prepared
    requires io.copyOk && Result(r.d, Update(io)).Failed?
    requires Starts(NextDual(r.d, Update(io)), boots, initIo) && ReadsRecord(NextDual(r.d, Update(io)), boots, initIo)
    requires !DualPart.Revert(Restarted(NextDual(r.d, Update(io)), boots, initIo), revertIo).1.Failed?
    ensures DualPart.Revert(Restarted(NextDual(r.d, Update(io)), boots, initIo), revertIo).0.contents
              == [r.committed, r.committed] <==>
              (RecordOf(r.d).state != Idle && RecordOf(r.d).updatePartition != r.d.currentPartition) ||
              io.image(r.d.state.imagePath) == r.committed
  {
    var stopped := NextDual(r.d, Update(io));
    UpdateStopped(r, io);
    AfterRestart(stopped, boots, initIo);
    RevertAfterStop(r, io, stopped, Restarted(stopped, boots, initIo), revertIo);
  }

  lemma RevertAfterStop(r: Run, io: Io, stopped: Dual, later: Dual, revertIo: Io)
    requires later.state == RecordOf(r.d) && later.contents == stopped.contents
    requires stopped.contents[r.d.currentPartition] == r.committed &&
             stopped.contents[Other(r.d.currentPartition)] == io.image(r.d.state.imagePath)
    requires !DualPart.Revert(later, revertIo).1.Failed?
    ensures DualPart.Revert(later, revertIo).0.contents == [r.committed, r.committed] <==>
              (RecordOf(r.d).state != Idle && RecordOf(r.d).updatePartition != r.d.currentPartition) ||
              io.image(r.d.state.imagePath) == r.committed
  {
    if later.state.state != Idle {
      RevertSource(later, revertIo);
    }
  }

  lemma RevertSource(d: Dual, io: Io)
    requires d.state.state != Idle && !DualPart.Revert(d, io).1.Failed?
    ensures var source := d.contents[Other(d.state.updatePartition)];
      DualPart.Revert(d, io).0.contents == [source, source]
  {
  }

  lemma UpdateStopped(r: Run, io: Io)
    requires Settled(r) && r.d.state.state == Prepared
    requires io.copyOk && Result(r.d, Update(io)).Failed?
    ensures var d := NextDual(r.d, Update(io));
      d.stored == r.d.stored && d.contents[r.d.currentPartition] == r.committed
      && d.contents[Other(r.d.currentPartition)] == io.image(r.d.state.imagePath)
  {
  }

  const IMAGE_A := Image(Some("1.0.0"), [])
  const IMAGE_B := Image(Some("2.0.0"), [])

  const RECORD := Record(Prepared, 0, "image")
  const BEFORE := Dual([IMAGE_A, IMAGE_A], EfiVars(Some([1, 2, 9]), None, Some(1)), [1, 2], Some(RECORD), RECORD, 0,
      "1.0.0", None)
  const STOPPED := BEFORE.(contents := [IMAGE_A, IMAGE_B], state := RECORD.(updatePartition := 1))
  const COPIED := Io(path => IMAGE_B, true, true, IMAGE_B, true, true)
  const ANSWERS := InitIo(true, true, true, None)

  lemma StoppedRestarts()
    ensures Starts(STOPPED, [], ANSWERS)
    ensures Restarted(STOPPED, [], ANSWERS).state == RECORD
    ensures Restarted(STOPPED, [], ANSWERS).contents == STOPPED.contents
  {
    assert STOPPED.vars.order.value[2] == 9;
    ForeignEntryStarts(STOPPED, [], ANSWERS, 9);
    AfterRestart(STOPPED, [], ANSWERS);
    hide Restarted, Starts;
  }

  /** An order with an entry that is none of the module's is checked without running past its end. */
  lemma ForeignEntryStarts(d: Dual, boots: seq<Up>, io: InitIo, foreign: u16)
    requires io.checkOk && d.vars.order.Some? && foreign in d.vars.order.value && foreign !in d.items
    ensures Starts(d, boots, io)
  {
    PastEndIff(d.vars.order.value, d.items);
    StartsExactly(d, boots, io);
  }

  lemma UpdateStops()
    ensures NextDual(BEFORE, Update(COPIED.(bootOk := false))) == STOPPED
  {
  }

  lemma StoppedReverts()
    ensures var later := Restarted(STOPPED, [], ANSWERS);
      !DualPart.Revert(later, COPIED).1.Failed? && DualPart.Revert(later, COPIED).0.contents == [IMAGE_B, IMAGE_B]
  {
    StoppedRestarts();
    AfterRestart(STOPPED, [], ANSWERS);
    hide Restarted, Starts;
    RevertSource(Restarted(STOPPED, [], ANSWERS), COPIED);
  }

  lemma TwoSteps(r: Run, first: Step, second: Step) returns (states: seq<Run>, steps: seq<Step>)
    requires Possible(r.d, first) && Possible(NextDual(r.d, first), second)
    ensures Trace(states, steps) && steps == [first, second] &&
            states == [r, Next(r, first), Next(Next(r, first), second)]
  {
    hide Possible, NextDual;
    states, steps := [r, Next(r, first), Next(Next(r, first), second)], [first, second];
  }

  /** One such run: a module that committed slot 0 last, prepared, loses the content it should go back to when only
      its process stops and starts again. */
  lemma RollbackCanBeLost() returns (states: seq<Run>, steps: seq<Step>, io: Io)
    ensures Trace(states, steps) && |steps| == 2
    ensures Settled(states[0]) && states[0].d.contents == [IMAGE_A, IMAGE_A]
    ensures !DualPart.Revert(states[2].d, io).1.Failed?
    ensures DualPart.Revert(states[2].d, io).0.contents == [IMAGE_B, IMAGE_B]
  {
    io := COPIED;
    var before, stop, back := Run(BEFORE, IMAGE_A, IMAGE_A, {1}), Update(io.(bootOk := false)), Restart([], ANSWERS);
    UpdateStops();
    StoppedRestarts();
    StoppedReverts();
    hide DualPart.Revert, Starts, Restarted, DualPart.Update, Commits, Trace;
    states, steps := TwoSteps(before, stop, back);
    assert states[2].d == Restarted(STOPPED, [], ANSWERS);
  }

  // ---------------------------------------------------------------- boot selection

  /** The default boot entry is one whose software has reached Init. */
  predicate MainHasBooted(r: Run) {
    r.d.vars.order.Some? && r.d.vars.order.value != [] && r.d.vars.order.value[0] in r.reached
  }

  predicate OrderIsNormal(d: Dual) {
    d.vars.order.Some? && IsNormal(d.vars.order.value, d.items)
  }

  /** Update and Revert select a slot for one boot only; no call touches BootOrder. */
  lemma CallsKeepBootOrder(d: Dual, step: Step)
    requires !step.Restart?
    ensures NextDual(d, step).vars == d.vars.(next := NextDual(d, step).vars.next)
    ensures step.Prepare? || step.Apply? ==> NextDual(d, step).vars == d.vars
    ensures NextDual(d, step).items == d.items
  {
  }

  /** The order a restart leaves: the checked one, with the running entry promoted if it is the module's and not in
      front already. */
  lemma OrderAfterRestart(d: Dual, boots: seq<Up>, io: InitIo)
    requires Starts(d, boots, io)
    ensures d.vars.order.Some?
    ensures var checked, current, order := Checked(d.vars.order.value, d.items), PowerCycles(d.vars, boots).current,
            Restarted(d, boots, io).vars.order;
      && checked != []
      && order == Some(if current.Some? && current.value in d.items && (io.writeOk || current.value == checked[0])
                       then Promoted(checked, current.value) else checked)
      && order.value != []
      && order.value[0] == (if current.Some? && current.value in d.items && io.writeOk then current.value
                            else checked[0])
  {
    StartsExactly(d, boots, io);
    CheckedOrder(d.vars.order.value, d.items);
    var created := Created(Booted(d, boots), io.checkOk).value;
    CreatedInits(created, io);
    BootOKExactly(created.vars, d.items, io.writeOk);
  }

  /** A restart leaves a normal order, whatever it found. */
  lemma NormalAfterRestart(d: Dual, boots: seq<Up>, io: InitIo)
    requires Starts(d, boots, io)
    ensures OrderIsNormal(Restarted(d, boots, io))
  {
    OrderAfterRestart(d, boots, io);
    hide Starts, Restarted, Promoted;
    var checked, current := Checked(d.vars.order.value, d.items), PowerCycles(d.vars, boots).current;
    CheckedOrder(d.vars.order.value, d.items);
    AfterRestart(d, boots, io);
    if current.Some? && current.value in d.items {
      PromotionKeepsNormal(checked, d.items, current.value);
    }
  }

  /** The check at start may put another entry in front. So the default entry stays one that has booted exactly when
      the entry in front after the check is one, or Init puts the running one there. */
  lemma StepKeepsMainBooted(r: Run, step: Step)
    requires MainHasBooted(r) && Possible(r.d, step)
    ensures MainHasBooted(Next(r, step)) <==>
              (step.Restart? ==>
                 var front, current := Checked(r.d.vars.order.value, r.d.items)[..1],
                     PowerCycles(r.d.vars, step.boots).current;
                 || (exists x :: front == [x] && x in r.reached)
                 || (current.Some? && (front == [current.value] ||
                     (current.value in r.d.items && step.initIo.writeOk))))
  {
    match step
    case Restart(boots, io) =>
      OrderAfterRestart(r.d, boots, io);
      AfterRestart(r.d, boots, io);
      var checked := Checked(r.d.vars.order.value, r.d.items);
      assert checked[..1] == [checked[0]];
    case _ => CallsKeepBootOrder(r.d, step);
  }

  /** Over any run from a normal order, which every restart leaves, software that never ran far enough to initialise
      the module never becomes the default. */
  lemma {:induction false} MainAlwaysBooted(states: seq<Run>, steps: seq<Step>, i: nat)
    requires Trace(states, steps) && MainHasBooted(states[0]) && OrderIsNormal(states[0].d) && i < |states|
    ensures MainHasBooted(states[i]) && OrderIsNormal(states[i].d)
  {
    hide Next, Possible, MainHasBooted, OrderIsNormal;
    if i > 0 {
      MainAlwaysBooted(states, steps, i - 1);
      NormalStepKeepsMain(states[i - 1], steps[i - 1]);
    }
  }

  lemma NormalStepKeepsMain(r: Run, step: Step)
    requires MainHasBooted(r) && OrderIsNormal(r.d) && Possible(r.d, step)
    ensures MainHasBooted(Next(r, step)) && OrderIsNormal(Next(r, step).d)
  {
    StepKeepsMainBooted(r, step);
    match step
    case Restart(boots, io) =>
      NormalAfterRestart(r.d, boots, io);
      CheckedOrder(r.d.vars.order.value, r.d.items);
      assert r.d.vars.order.value[..1] == [r.d.vars.order.value[0]];
    case _ => CallsKeepBootOrder(r.d, step);
  }

  lemma ForeignEntryGivesWay(r: Run, io: InitIo)
    requires Starts(r.d, [], io) && r.d.vars.current.Some? && r.d.vars.current.value !in r.d.items
    requires forall x :: x in r.reached ==> x !in r.d.items
    ensures Next(r, Restart([], io)).d.vars.current == r.d.vars.current && !MainHasBooted(Next(r, Restart([], io)))
  {
    OrderAfterRestart(r.d, [], io);
    AfterRestart(r.d, [], io);
    CheckedOrder(r.d.vars.order.value, r.d.items);
    hide Starts, Restarted, Checked;
  }

  /** From an order that is not normal it can: a foreign entry in front runs, and the check puts a module entry that
      has never booted before it. */
  lemma MainCanBeReplaced() returns (r: Run, step: Step)
    ensures MainHasBooted(r) && Possible(r.d, step) && step.Restart?
    ensures r.d.vars.order == Some([9, 1, 2]) && r.d.items == [1, 2] && r.reached == {9}
    ensures Next(r, step).d.vars.current == Some(9) && !MainHasBooted(Next(r, step))
  {
    var d := BEFORE.(vars := EfiVars(Some([9, 1, 2]), None, Some(9)));
    r, step := Run(d, IMAGE_A, IMAGE_A, {9}), Restart([], ANSWERS);
    assert d.vars.order.value[0] == 9;
    ForeignEntryStarts(d, [], ANSWERS, 9);
    ForeignEntryGivesWay(r, ANSWERS);
  }

  // ---------------------------------------------------------------- the running slot

  /** Without a boot error the module's slot is the running one, as far as the running entry is one of its own; an
      unknown entry counts as slot 0. */
  predicate Known(d: Dual) {
    d.bootErr.None? ==> d.vars.current.Some? && d.currentPartition == SlotOf(d.items, d.vars.current.value)
  }

  predicate RunsUpdate(d: Dual) {
    d.vars.current == Some(d.items[d.state.updatePartition])
  }

  /** Slot 0 is the new one, and an entry that is none of the module's counts as it. */
  predicate Mistaken(d: Dual) {
    d.state.updatePartition == 0 && d.vars.current.Some? && d.vars.current.value !in d.items
  }

  lemma StepKeepsKnown(r: Run, step: Step)
    requires Known(r.d) && Possible(r.d, step)
    ensures Known(Next(r, step).d)
  {
    match step
    case Restart(boots, io) => AfterRestart(r.d, boots, io);
    case _ =>
  }

  /** An Update that reports success after its reboot vouches for the running slot, unless slot 0 is the new one and
      the machine runs from an entry the module does not know. */
  lemma DoneRunsUpdate(d: Dual, io: Io)
    requires Known(d) && DualPart.Update(d, io).1 == Done
    ensures RunsUpdate(d) <==> !Mistaken(d)
  {
  }

  /** Over every run, with any outcomes: when Update succeeds on a pending update, the slot it was written to is the
      running one exactly when it is not the case that slot 0 was written and an unknown entry runs. */
  lemma {:induction false} PendingSlotRuns(states: seq<Run>, steps: seq<Step>, i: nat, io: Io)
    requires Trace(states, steps) && Known(states[0].d) && i < |states|
    ensures Known(states[i].d)
    ensures var d := states[i].d;
      DualPart.Update(d, io).1 == Done ==> (RunsUpdate(d) <==> !Mistaken(d))
  {
    hide Next, Possible, Known, RunsUpdate, Mistaken, DualPart.Update;
    if i > 0 {
      PendingSlotRuns(states, steps, i - 1, io);
      StepKeepsKnown(states[i - 1], steps[i - 1]);
    }
    if DualPart.Update(states[i].d, io).1 == Done {
      DoneRunsUpdate(states[i].d, io);
    }
  }

  // ---------------------------------------------------------------- the trial boot

  /** An update has been written, and the other slot is the default. */
  predicate TrialPending(r: Run) {
    && Settled(r) && r.d.state.state == Updated
    && r.d.items[0] != r.d.items[1]
    && r.d.vars.order.Some? && r.d.vars.order.value != []
    && r.d.vars.order.value[0] == r.d.items[Other(r.d.state.updatePartition)]
  }

  /** The default entry is the running slot's. */
  predicate RunsMain(d: Dual) {
    && d.items[0] != d.items[1]
    && d.vars.order.Some? && d.vars.order.value != [] && d.vars.order.value[0] == d.items[d.currentPartition]
  }

  /** An Update that asks for a reboot has put the image in the spare slot and selected that slot for the next boot,
      and only for it. */
  lemma UpdateStartsTrial(r: Run, io: Io)
    requires Settled(r) && r.d.state.state == Prepared && RunsMain(r.d) && Result(r.d, Update(io)) == RebootRequired
    ensures var trial := Next(r, Update(io));
      && TrialPending(trial) && trial.staged == io.image(r.d.state.imagePath) && trial.committed == r.committed
      && trial.d.state.updatePartition == Other(r.d.currentPartition)
      && trial.d.items == r.d.items
      && trial.d.vars == r.d.vars.(next := Some(r.d.items[Other(r.d.currentPartition)]))
  {
  }

  /** When Init reads the record after any power cycles, the repeated Update succeeds exactly when the running entry is
      the new slot's (or unknown, with slot 0 the new one), that slot has a version, and the checker is content. */
  lemma TrialVerdict(r: Run, boots: seq<Up>, initIo: InitIo, io: Io)
    requires TrialPending(r) && Starts(r.d, boots, initIo) && ReadsRecord(r.d, boots, initIo)
    ensures var upd, booted := r.d.state.updatePartition, PowerCycles(r.d.vars, boots).current.value;
      DualPart.Update(Restarted(r.d, boots, initIo), io).1 == Done
      <==> && (booted == r.d.items[upd] || (upd == 0 && booted !in r.d.items))
           && r.d.contents[upd].version.Some? && initIo.check.None?
  {
    hide Starts, Restarted, PowerCycles, Checked, OrderCheck;
    AfterRestart(r.d, boots, initIo);
  }

  /** The selection of the new slot lasts for one power cycle: if it does not come up in the first one, or there are
      more, the default entry runs, provided it comes up. */
  lemma OldSlotComesUp(r: Run, boots: seq<Up>)
    requires TrialPending(r) && r.d.vars.next == Some(r.d.items[r.d.state.updatePartition])
    requires boots != [] && (|boots| > 1 || r.d.items[r.d.state.updatePartition] !in boots[0])
    requires r.d.items[Other(r.d.state.updatePartition)] in boots[|boots| - 1]
    ensures PowerCycles(r.d.vars, boots).current == Some(r.d.items[Other(r.d.state.updatePartition)])
    ensures NotTheNewSlot(r.d, PowerCycles(r.d.vars, boots).current)
  {
    TriedOnce(r.d.vars, boots);
  }

  /** Anything but the new slot runs: no new entry has come to the front, the repeated Update reports the failure, and
      a revert that completes restores both slots without asking for another reboot. */
  lemma FallbackIsSafe(r: Run, boots: seq<Up>, initIo: InitIo, io: Io, revertIo: Io)
    requires TrialPending(r) && Starts(r.d, boots, initIo) && initIo.loadOk
    requires NotTheNewSlot(r.d, PowerCycles(r.d.vars, boots).current)
    ensures var d := Restarted(r.d, boots, initIo);
      && d.vars.order == Some(Checked(r.d.vars.order.value, r.d.items))
      && d.vars.order.value != [] && d.vars.order.value[0] == r.d.vars.order.value[0]
      && (boots != [] ==> d.vars.next == None)
      && DualPart.Update(d, io) == (d, Failed("update was failed"))
      && var (reverted, result) := DualPart.Revert(d, revertIo);
         !result.Failed? ==> result == Done && reverted.contents == [r.committed, r.committed]
  {
    hide Starts, Restarted, Checked, PowerCycles, DualPart.Revert, DualPart.Update, NotTheNewSlot, SlotOf, Known,
        TrialPending;
    TrialFacts(r, PowerCycles(r.d.vars, boots).current);
    CyclesConsumeOnlyBootNext(r.d.vars, boots);
    OrderStays(r.d, boots, initIo);
    AfterRestart(r.d, boots, initIo);
    RevertFromOldSlot(r, Restarted(r.d, boots, initIo), io, revertIo);
  }

  lemma PromotedHead(order: seq<u16>)
    requires order != []
    ensures Promoted(order, order[0]) == order
  {
  }

  lemma OrderStays(d: Dual, boots: seq<Up>, io: InitIo)
    requires Starts(d, boots, io) && d.vars.order.Some? && d.vars.order.value != [] && d.vars.order.value[0] in d.items
    requires var current := PowerCycles(d.vars, boots).current;
      current.Some? && (current.value in d.items ==> current.value == d.vars.order.value[0])
    ensures var order := Restarted(d, boots, io).vars.order;
      && order == Some(Checked(d.vars.order.value, d.items))
      && order.value != [] && order.value[0] == d.vars.order.value[0]
    ensures io.loadOk ==> ReadsRecord(d, boots, io)
  {
    hide Starts, Restarted, Checked, PowerCycles, Promoted;
    CheckedOrder(d.vars.order.value, d.items);
    OrderAfterRestart(d, boots, io);
    CyclesConsumeOnlyBootNext(d.vars, boots);
    PromotedHead(Checked(d.vars.order.value, d.items));
  }

  /** The running entry is not the new slot's, nor an unknown one that counts as it. */
  predicate NotTheNewSlot(d: Dual, current: Option<u16>) {
    && current.Some? && current.value != d.items[d.state.updatePartition]
    && (d.state.updatePartition == 1 || current.value in d.items)
  }

  lemma TrialFacts(r: Run, current: Option<u16>)
    requires TrialPending(r) && NotTheNewSlot(r.d, current)
    ensures Settled(r) && r.d.state.state == Updated && RecordOf(r.d) == r.d.state
    ensures r.d.vars.order.Some? && r.d.vars.order.value != [] && r.d.vars.order.value[0] in r.d.items
    ensures current.Some? && SlotOf(r.d.items, current.value) != r.d.state.updatePartition
    ensures current.value in r.d.items ==> current.value == r.d.vars.order.value[0]
  {
  }

  lemma RevertFromOldSlot(r: Run, d: Dual, io: Io, revertIo: Io)
    requires Settled(r) && d.state == r.d.state && d.contents == r.d.contents
    requires d.state.state == Updated && d.currentPartition != d.state.updatePartition
    ensures DualPart.Update(d, io) == (d, Failed("update was failed"))
    ensures var (reverted, result) := DualPart.Revert(d, revertIo);
      !result.Failed? ==> result == Done && reverted.contents == [r.committed, r.committed]
  {
  }

  /** From before Update: the new slot does not come up in its one power cycle and the old one does later. */
  lemma FailedTrialFallsBack(r: Run, io: Io, boots: seq<Up>, initIo: InitIo)
    requires Settled(r) && r.d.state.state == Prepared && RunsMain(r.d) && Result(r.d, Update(io)) == RebootRequired
    requires Starts(NextDual(r.d, Update(io)), boots, initIo) && initIo.loadOk
    requires boots != [] && (|boots| > 1 || r.d.items[Other(r.d.currentPartition)] !in boots[0])
    requires r.d.items[r.d.currentPartition] in boots[|boots| - 1]
    ensures TrialPending(Next(r, Update(io)))
    ensures NotTheNewSlot(NextDual(r.d, Update(io)), PowerCycles(NextDual(r.d, Update(io)).vars, boots).current)
  {
    hide NextDual, Settled, RunsMain, TrialPending, NotTheNewSlot, Result, Starts, PowerCycles, Commits;
    UpdateStartsTrial(r, io);
    OldSlotComesUp(Next(r, Update(io)), boots);
  }

  /** When the new slot reaches Init it becomes the default; otherwise the order is the checked one. */
  lemma TrialPromotes(r: Run, boots: seq<Up>, initIo: InitIo)
    requires TrialPending(r) && Starts(r.d, boots, initIo) && initIo.writeOk
    requires PowerCycles(r.d.vars, boots).current == Some(r.d.items[r.d.state.updatePartition])
    ensures var order := Restarted(r.d, boots, initIo).vars.order;
      order.Some? && order.value != [] && order.value[0] == r.d.items[r.d.state.updatePartition]
      && multiset(order.value) == multiset(Checked(r.d.vars.order.value, r.d.items))
  {
    OrderAfterRestart(r.d, boots, initIo);
  }

  /** The way it is meant to go: once the new slot comes up, Update succeeds, and Apply makes it the content of both
      slots and leaves it the default entry with nothing selected for one boot. */
  lemma UpdateTakesEffect(r: Run, io: Io, up: Up, initIo: InitIo, again: Io, applyIo: Io)
    requires Settled(r) && r.d.state.state == Prepared && RunsMain(r.d) && Result(r.d, Update(io)) == RebootRequired
    requires Starts(NextDual(r.d, Update(io)), [up], initIo) && r.d.items[Other(r.d.currentPartition)] in up
    requires initIo.writeOk && initIo.loadOk && initIo.check.None? && io.image(r.d.state.imagePath).version.Some?
    ensures var d := Restarted(NextDual(r.d, Update(io)), [up], initIo);
      var (applied, result) := DualPart.Apply(d, applyIo);
      && DualPart.Update(d, again) == (d, Done)
      && applied.vars.next == None && applied.vars.order.Some? && applied.vars.order.value != []
      && applied.vars.order.value[0] == r.d.items[Other(r.d.currentPartition)]
      && var image := io.image(r.d.state.imagePath);
         (!result.Failed? ==> result == Done && applied.contents == [image, image])
  {
    var trial, back := Next(r, Update(io)), Restart([up], initIo);
    var d := Restarted(trial.d, [up], initIo);
    UpdateStartsTrial(r, io);
    TriedOnce(trial.d.vars, [up]);
    CyclesConsumeOnlyBootNext(trial.d.vars, [up]);
    TrialVerdict(trial, [up], initIo, again);
    TrialPromotes(trial, [up], initIo);
    AfterRestart(trial.d, [up], initIo);
    SuccessKeepsSettled(trial, back);
    CallsKeepBootOrder(d, Apply(applyIo));
    hide Restarted;
    AppliedIsStaged(Next(trial, back), again, applyIo);
  }

  lemma AppliedIsStaged(r: Run, again: Io, io: Io)
    requires Settled(r) && r.d.state.state != Idle && DualPart.Update(r.d, again).1 == Done
    ensures DualPart.Update(r.d, again) == (r.d, Done)
    ensures var (applied, result) := DualPart.Apply(r.d, io);
      !result.Failed? ==> result == Done && applied.contents == [r.staged, r.staged]
  {
  }

  /** After a restart with an update pending, an Apply that reports success has put the image in both slots exactly when
      Init read the record. Otherwise the module takes itself to be idle and the Apply to be done already. */
  lemma ApplyAfterRestart(r: Run, boots: seq<Up>, initIo: InitIo, io: Io)
    requires Settled(r) && r.d.state.state == Updated && r.staged != r.committed && Starts(r.d, boots, initIo)
    requires !DualPart.Apply(Restarted(r.d, boots, initIo), io).1.Failed?
    ensures ReadsRecord(r.d, boots, initIo)
       <==> DualPart.Apply(Restarted(r.d, boots, initIo), io).0.contents == [r.staged, r.staged]
    ensures !ReadsRecord(r.d, boots, initIo) ==>
              DualPart.Apply(Restarted(r.d, boots, initIo), io) == (Restarted(r.d, boots, initIo), Done)
  {
    AfterRestart(r.d, boots, initIo);
    hide Starts, Restarted, ReadsRecord, Known;
    ApplyFrom(r, Restarted(r.d, boots, initIo), io);
  }

  lemma ApplyFrom(r: Run, d: Dual, io: Io)
    requires Settled(r) && r.d.state.state == Updated && r.staged != r.committed && d.contents == r.d.contents
    requires d.state == r.d.state || d.state == NEW_RECORD
    requires !DualPart.Apply(d, io).1.Failed?
    ensures d.state == r.d.state <==> DualPart.Apply(d, io).0.contents == [r.staged, r.staged]
    ensures d.state == NEW_RECORD ==> DualPart.Apply(d, io) == (d, Done)
  {
  }

  const WRITTEN := BEFORE.(vars := EfiVars(Some([2, 1, 9]), None, Some(2)), currentPartition := 1)

  lemma NineComesUp(vars: EfiVars)
    requires vars == EfiVars(Some([2, 1, 9]), Some(1), Some(2))
    ensures PowerCycles(vars, [{9}]).current == Some(9) && PowerCycles(vars, [{9}]).order == vars.order
  {
    TriedOnce(vars, [{9}]);
    CyclesConsumeOnlyBootNext(vars, [{9}]);
    assert [2, 1, 9][1..] == [1, 9] && [1, 9][1..] == [9];
    assert FirstUp([9], {9}) == Some(9) && FirstUp([1, 9], {9}) == Some(9);
  }

  lemma ForeignTrial(trial: Run, io: Io)
    requires TrialPending(trial) && trial.d.vars == EfiVars(Some([2, 1, 9]), Some(1), Some(2)) &&
             trial.d.items == [1, 2]
    requires trial.d.state.updatePartition == 0 && trial.staged == IMAGE_B && io == COPIED
    ensures Starts(trial.d, [{9}], ANSWERS)
    ensures var d := Restarted(trial.d, [{9}], ANSWERS);
      && d.vars.current == Some(9) && d.items == [1, 2] && d.version == "2.0.0"
      && DualPart.Update(d, io).1 == Done && DualPart.Apply(d, io).0.contents == [IMAGE_B, IMAGE_B]
  {
    NineComesUp(trial.d.vars);
    assert trial.d.vars.order.value[2] == 9;
    ForeignEntryStarts(trial.d, [{9}], ANSWERS, 9);
    TrialVerdict(trial, [{9}], ANSWERS, io);
    AfterRestart(trial.d, [{9}], ANSWERS);
    hide Starts, Restarted, PowerCycles, Checked;
    ApplyRunsOver(trial, Restarted(trial.d, [{9}], ANSWERS), io);
  }

  lemma ApplyRunsOver(r: Run, d: Dual, io: Io)
    requires Settled(r) && r.d.state.state == Updated && d.state == r.d.state && d.contents == r.d.contents
    ensures io.copyOk ==> DualPart.Apply(d, io).0.contents == [r.staged, r.staged]
  {
  }

  lemma ForeignBegins(before: Run, io: Io)
    requires before == Run(WRITTEN, IMAGE_A, IMAGE_A, {2}) && io == COPIED
    ensures Settled(before) && RunsMain(before.d) && Known(before.d)
    ensures var trial := Next(before, Step.Update(io));
      && TrialPending(trial) && trial.d.vars == EfiVars(Some([2, 1, 9]), Some(1), Some(2)) && trial.d.items == [1, 2]
      && trial.d.state.updatePartition == 0 && trial.staged == IMAGE_B
  {
    UpdateStartsTrial(before, io);
  }

  /** Slot 0 is written, neither slot comes up, and an entry the module does not know does: Update reports success for
      an image that has never booted, and Apply copies it over the other slot. */
  lemma ForeignEntryPasses() returns (states: seq<Run>, steps: seq<Step>, io: Io)
    ensures Trace(states, steps) && |steps| == 2 && Settled(states[0]) && RunsMain(states[0].d) && Known(states[0].d)
    ensures states[2].d.vars.current == Some(9) && states[2].d.items == [1, 2]
    ensures DualPart.Update(states[2].d, io).1 == Done && states[2].d.version == "2.0.0"
    ensures DualPart.Apply(states[2].d, io).0.contents == [IMAGE_B, IMAGE_B]
  {
    io := COPIED;
    var before, update, back := Run(WRITTEN, IMAGE_A, IMAGE_A, {2}), Update(io), Restart([{9}], ANSWERS);
    ForeignBegins(before, io);
    ForeignTrial(Next(before, update), io);
    hide DualPart.Update, Starts, Restarted, Commits, Trace, DualPart.Apply, Settled, RunsMain, Known, TrialPending;
    states, steps := TwoSteps(before, update, back);
    assert states[2].d == Restarted(Next(before, update).d, [{9}], ANSWERS);
  }
}
