/** The dual-partition update module as the source writes it: an object whose methods update its fields, its
    devices and the firmware variables step by step. */
module DualPartModule {
  import opened Prelude
  import opened EfiController
  import opened Spec = DualPart

  class Module {
    const partitions: array<Image>
    const controller: Controller
    var stored: Option<Record>
    var state: Record
    var currentPartition: Slot
    var version: string
    var bootErr: Option<Error>

    ghost predicate Valid()
      reads this, controller
    {
      partitions.Length == 2 && |controller.bootItems| == 2
    }

    ghost function View(): Dual
      requires Valid()
      reads this, controller, partitions
    {
      Dual(partitions[..], controller.vars, controller.bootItems, stored, state, currentPartition, version, bootErr)
    }

    constructor (partitions: array<Image>, controller: Controller, stored: Option<Record>)
      requires partitions.Length == 2 && |controller.bootItems| == 2
      ensures Valid() && this.partitions == partitions && this.controller == controller && this.stored == stored
      ensures View() == Spec.Fresh(View())
    {
      this.partitions, this.controller, this.stored := partitions, controller, stored;
      state, currentPartition, version, bootErr := NEW_RECORD, 0, "", None;
    }

    method SetState(newState: UpdateState, io: Io) returns (ok: bool)
      requires Valid()
      modifies `state, `stored
      ensures Valid() && View() == Spec.Saved(old(View()), newState, io) && ok == io.saveOk
    {
      state := state.(state := newState);
      ok := io.saveOk;
      if ok { stored := Some(state); }
    }

    method CopyToDevice(dst: Slot, source: Image, io: Io) returns (ok: bool)
      requires Valid()
      modifies partitions
      ensures Valid() && View() == Spec.Written(old(View()), dst, source, io) && ok == io.copyOk
    {
      ok := io.copyOk;
      partitions[dst] := if ok then source else io.torn;
      assert partitions[..] == old(partitions[..])[dst := partitions[dst]];
    }

    method Prepare(imagePath: string, io: Io) returns (err: Option<Error>)
      requires Valid()
      modifies this
      ensures Valid() && (View(), err) == Spec.Prepare(old(View()), imagePath, io)
    {
      if state.state != Idle && state.state != Prepared { return Some("wrong state"); }
      if !io.statOk { return Some("no image"); }
      state := state.(imagePath := imagePath);
      var ok := SetState(Prepared, io);
      return if ok then None else Some("save failed");
    }

    method Update(io: Io) returns (r: CallResult)
      requires Valid()
      modifies this, partitions, controller`vars
      ensures Valid() && (View(), r) == Spec.Update(old(View()), io)
    {
      if state.state == Updated {
        if currentPartition != state.updatePartition { return Failed("update was failed"); }
        if bootErr.Some? { return Failed(bootErr.value); }
        return Done;
      }
      if state.state != Prepared { return Failed("wrong state"); }
      var secPartition := (currentPartition + 1) % partitions.Length;
      state := state.(updatePartition := secPartition);
      var ok := CopyToDevice(secPartition, io.image(state.imagePath), io);
      if !ok { return Failed("copy failed"); }
      var err := controller.SetMainBoot(secPartition, io.bootOk);
      if err.Some? { return Failed(err.value); }
      ok := SetState(Updated, io);
      return if ok then RebootRequired else Failed("save failed");
    }

    method Revert(io: Io) returns (r: CallResult)
      requires Valid()
      modifies this, partitions, controller`vars
      ensures Valid() && (View(), r) == Spec.Revert(old(View()), io)
    {
      if state.state == Idle { return Done; }
      var updatePartition := state.updatePartition;
      var secPartition := (updatePartition + 1) % partitions.Length;
      var ok := CopyToDevice(updatePartition, partitions[secPartition], io);
      if !ok { return Failed("copy failed"); }
      var err := controller.SetMainBoot(secPartition, io.bootOk);
      if err.Some? { return Failed(err.value); }
      ok := SetState(Idle, io);
      if !ok { return Failed("save failed"); }
      return if currentPartition == state.updatePartition then RebootRequired else Done;
    }

    method Apply(io: Io) returns (r: CallResult)
      requires Valid()
      modifies this, partitions
      ensures Valid() && (View(), r) == Spec.Apply(old(View()), io)
    {
      if state.state == Idle { return Done; }
      if state.state != Updated { return Failed("wrong state"); }
      var current := state.updatePartition;
      var secPartition := (current + 1) % partitions.Length;
      var ok := CopyToDevice(secPartition, partitions[current], io);
      if !ok { return Failed("copy failed"); }
      ok := SetState(Idle, io);
      return if ok then Done else Failed("save failed");
    }

    method Init(io: InitIo) returns (err: Option<Error>)
      requires Valid()
      modifies this, controller`vars
      ensures Valid() && (View(), err) == Spec.Init(old(View()), io)
    {
      err := InitSteps(io);
      if err.Some? && bootErr.None? { bootErr := err; }
    }

    /** The steps of initialisation, before the boot error is recorded. */
    method InitSteps(io: InitIo) returns (err: Option<Error>)
      requires Valid()
      modifies this, controller`vars
      ensures Valid()
      ensures err.None? ==> (View(), err) == Spec.Init(old(View()), io)
      ensures err.Some? ==> Spec.BootFailed(View(), err.value) == Spec.Init(old(View()), io) && bootErr == old(bootErr)
    {
      err := controller.SetBootOK(io.writeOk);
      if err.Some? { return; }
      var current := controller.GetCurrentBoot();
      currentPartition := if current.Ok? then current.value else 0;
      if current.Err? { return Some(current.error); }
      var primary := controller.GetMainBoot();
      if primary.Err? { return Some(primary.error); }
      if !io.loadOk { return Some("load failed"); }
      if stored.Some? { state := stored.value; }
      var v := partitions[currentPartition].version;
      version := if v.Some? then v.value else "";
      if v.None? { return Some("version file has wrong format"); }
      if bootErr.None? { bootErr := io.check; }
      return None;
    }
  }

  /** What happens to a module when a process comes up: its controller checks the boot order, the module is created
      over it, and the handler initialises it. Without a controller there is no module, and no process. */
  method Start(partitions: array<Image>, controller: Controller, stored: Option<Record>, io: InitIo)
    returns (m: Module?)
    requires partitions.Length == 2 && |controller.bootItems| == 2
    modifies controller`vars
    ensures var d := Dual(old(partitions[..]), old(controller.vars), controller.bootItems, stored, NEW_RECORD, 0, "",
            None);
      if m == null then Spec.Started(d, io).None? && controller.vars == old(controller.vars)
      else m.Valid() && Spec.Started(d, io) == Some(m.View())
  {
    var outcome := controller.CheckBootOrder(io.checkOk);
    if outcome != Completed { return null; }
    m := new Module(partitions, controller, stored);
    var _ := m.Init(io);
  }
}
