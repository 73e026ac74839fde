/** The dual-partition update module as a function of its state and of how the environment answers:
    two slots, a persisted record and one-shot boot selection. */
module DualPart {
  import opened Prelude
  import opened EfiController

  /** The content of a slot; version is None when the version file is absent or has the wrong format. */
  datatype Image = Image(version: Option<string>, bytes: seq<u8>)

  datatype UpdateState = Idle | Prepared | Updated

  type Slot = x: nat | x < 2

  datatype Record = Record(state: UpdateState, updatePartition: Slot, imagePath: string)

  type Slots = s: seq<Image> | |s| == 2 witness [Image(None, []), Image(None, [])]

  type Entries = s: seq<u16> | |s| == 2 witness [0, 1]

  const NEW_RECORD := Record(Idle, 0, "")

  /** Everything a module's behaviour depends on. Slots, EFI variables and the stored record outlive the
      process; the other fields are lost when it stops. */
  datatype Dual = Dual(
    contents: Slots, vars: EfiVars, items: Entries, stored: Option<Record>,
    state: Record, currentPartition: Slot, version: string, bootErr: Option<Error>)

  /** How the devices, the firmware and the storage answer during one call; image is what the files hold. A failed copy
      leaves torn in the destination, which may be what was there before. */
  datatype Io = Io(image: string -> Image, statOk: bool, copyOk: bool, torn: Image, bootOk: bool, saveOk: bool)

  /** checkOk and writeOk: whether BootOrder can be written while the controller is created and during Init. */
  datatype InitIo = InitIo(checkOk: bool, writeOk: bool, loadOk: bool, check: Option<Error>)

  function Other(slot: Slot): Slot {
    (slot + 1) % 2
  }

  // ---------------------------------------------------------------- specification functions

  function Saved(d: Dual, state: UpdateState, io: Io): Dual {
    var d1 := d.(state := d.state.(state := state));
    if io.saveOk then d1.(stored := Some(d1.state)) else d1
  }

  /** Copying source to the slot dst, as far as the device allows. */
  function Written(d: Dual, dst: Slot, source: Image, io: Io): Dual {
    d.(contents := d.contents[dst := if io.copyOk then source else io.torn])
  }

  function Prepare(d: Dual, imagePath: string, io: Io): (Dual, Option<Error>) {
    if d.state.state == Updated then (d, Some("wrong state"))
    else if !io.statOk then (d, Some("no image"))
    else
      var d1 := Saved(d.(state := d.state.(imagePath := imagePath)), Prepared, io);
      (d1, if io.saveOk then None else Some("save failed"))
  }

  function Update(d: Dual, io: Io): (Dual, CallResult) {
    match d.state.state
    case Updated =>
      if d.currentPartition != d.state.updatePartition then (d, Failed("update was failed"))
      else if d.bootErr.Some? then (d, Failed(d.bootErr.value))
      else (d, Done)
    case Idle => (d, Failed("wrong state"))
    case Prepared =>
      var spare := Other(d.currentPartition);
      var d1 := Written(d.(state := d.state.(updatePartition := spare)), spare, io.image(d.state.imagePath), io);
      if !io.copyOk then (d1, Failed("copy failed"))
      else
        var (vars, err) := MainBootSet(d1.vars, d1.items, spare, io.bootOk);
        if err.Some? then (d1, Failed(err.value))
        else
          var d2 := Saved(d1.(vars := vars), Updated, io);
          (d2, if io.saveOk then RebootRequired else Failed("save failed"))
  }

  function Revert(d: Dual, io: Io): (Dual, CallResult) {
    if d.state.state == Idle then (d, Done)
    else
      var upd := d.state.updatePartition;
      var d1 := Written(d, upd, d.contents[Other(upd)], io);
      if !io.copyOk then (d1, Failed("copy failed"))
      else
        var (vars, err) := MainBootSet(d1.vars, d1.items, Other(upd), io.bootOk);
        if err.Some? then (d1, Failed(err.value))
        else
          var d2 := Saved(d1.(vars := vars), Idle, io);
          (d2, if !io.saveOk then Failed("save failed")
               else if d2.currentPartition == upd then RebootRequired else Done)
  }

  function Apply(d: Dual, io: Io): (Dual, CallResult) {
    match d.state.state
    case Idle => (d, Done)
    case Prepared => (d, Failed("wrong state"))
    case Updated =>
      var upd := d.state.updatePartition;
      var d1 := Written(d, Other(upd), d.contents[upd], io);
      if !io.copyOk then (d1, Failed("copy failed"))
      else
        var d2 := Saved(d1, Idle, io);
        (d2, if io.saveOk then Done else Failed("save failed"))
  }

  /** What a new process starts from. */
  function Fresh(d: Dual): Dual {
    d.(state := NEW_RECORD, currentPartition := 0, version := "", bootErr := None)
  }

  function BootFailed(d: Dual, err: Error): (Dual, Option<Error>) {
    (if d.bootErr.None? then d.(bootErr := Some(err)) else d, Some(err))
  }

  /** Init confirms the running entry and then reads what the firmware and the storage say. */
  function Init(d: Dual, io: InitIo): (Dual, Option<Error>) {
    var (vars, okErr) := BootOK(d.vars, d.items, io.writeOk);
    Loaded(d.(vars := vars), io, okErr, CurrentBoot(vars, d.items), MainBoot(vars, d.items))
  }

  function Loaded(d: Dual, io: InitIo, okErr: Option<Error>, current: Result<Slot>, main: Result<nat>): (Dual,
                  Option<Error>) {
    if okErr.Some? then BootFailed(d, okErr.value)
    else
      match current
      case Err(e) => BootFailed(d.(currentPartition := 0), e)
      case Ok(slot) =>
        var d1 := d.(currentPartition := slot);
        match main
        case Err(e) => BootFailed(d1, e)
        case Ok(_) =>
          if !io.loadOk then BootFailed(d1, "load failed")
          else
            var d2 := if d1.stored.Some? then d1.(state := d1.stored.value) else d1;
            match d2.contents[slot].version
            case None => BootFailed(d2.(version := ""), "version file has wrong format")
            case Some(v) =>
              var d3 := d2.(version := v);
              (if d3.bootErr.None? then d3.(bootErr := io.check) else d3, None)
  }

  /** A new process: the controller checks the boot order, the module is created and initialised. None if the
      controller cannot be created, so that no process comes up. */
  function Started(d: Dual, io: InitIo): Option<Dual> {
    match Created(d, io.checkOk)
    case None => None
    case Some(created) => Some(Init(created, io).0)
  }

  function Created(d: Dual, checkOk: bool): Option<Dual> {
    var (vars, outcome) := OrderCheck(d.vars, d.items, checkOk);
    if outcome == Completed then Some(Fresh(d.(vars := vars))) else None
  }
}
