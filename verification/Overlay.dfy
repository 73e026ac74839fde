/** The overlay update module as a function of its state and of how the environment answers. It talks to the early
    boot code, which is not part of this model, through flag files. */
module Overlay {
  import opened Prelude

  datatype UpdateState = Idle | Prepared | Updated

  /** The files of the update directory: the image moved there from the path it was downloaded to, and flags. */
  datatype File =
    | ImageFile(path: string)
    | DoUpdate(updateType: string)
    | DoApply(updateType: string)
    | UpdatedFlag
    | FailedFlag

  datatype Record = Record(state: UpdateState, updateType: string)

  const NEW_RECORD := Record(Idle, "")

  datatype Overlay = Overlay(files: set<File>, installed: Option<string>, stored: Option<Record>,
                             state: Record, bootWithUpdate: bool, bootErr: Option<Error>, version: string)

  /** How files and storage answer during one call. A directory that cannot be cleared keeps some of its files. */
  datatype Io = Io(clearOk: bool, left: set<File>, renameOk: bool, writeOk: bool,
                   removeOk: bool, saveOk: bool, check: Option<Error>)

  function Cleared(o: Overlay, io: Io): Overlay {
    o.(files := if io.clearOk then {} else o.files * io.left)
  }

  function WithState(o: Overlay, state: UpdateState): Overlay {
    o.(state := o.state.(state := state))
  }

  function Saved(o: Overlay, io: Io): Overlay {
    if io.saveOk then o.(stored := Some(o.state)) else o
  }

  function ToResult(ok: bool, result: CallResult): CallResult {
    if ok then result else Failed("save failed")
  }

  /** The update type comes from the request's annotations, if they are well formed. The record is set in memory before
      the image is in place and before it is stored. */
  function Prepare(o: Overlay, imagePath: string, updateType: Option<string>, io: Io): (Overlay, Option<Error>) {
    if o.state.state == Updated then (o, Some("wrong state"))
    else if updateType.None? then (o, Some("malformed annotations"))
    else
      var o1 := Cleared(o.(state := Record(Prepared, updateType.value)), io);
      if !io.clearOk then (o1, Some("can't clear update dir"))
      else if !io.renameOk then (o1, Some("can't move image"))
      else
        var o2 := Saved(o1.(files := o1.files + {ImageFile(imagePath)}), io);
        (o2, if io.saveOk then None else Some("save failed"))
  }

  function Update(o: Overlay, io: Io): (Overlay, CallResult) {
    match o.state.state
    case Updated =>
      if !o.bootWithUpdate then (o, Failed("boot with update failed"))
      else if o.bootErr.Some? then (o, Failed(o.bootErr.value))
      else if !io.removeOk then (o, Failed("can't remove flag"))
      else (o.(files := o.files - {UpdatedFlag}), Done)
    case Idle => (o, Failed("wrong state"))
    case Prepared =>
      if !io.writeOk then (o, Failed("can't write flag"))
      else
        var o1 := Saved(WithState(o.(files := o.files + {DoUpdate(o.state.updateType)}), Updated), io);
        (o1, ToResult(io.saveOk, RebootRequired))
  }

  function Apply(o: Overlay, io: Io): (Overlay, CallResult) {
    var o0 := if io.removeOk then o.(files := o.files - {UpdatedFlag}) else o;
    if o.bootErr.Some? then (o0, Failed(o.bootErr.value))
    else
      match o.state.state
      case Idle => (Cleared(o0, io), if io.clearOk then Done else Failed("can't clear update dir"))
      case Prepared => (o0, Failed("wrong state"))
      case Updated =>
        if !io.writeOk then (o0, Failed("can't write flag"))
        else
          var o1 := Saved(WithState(o0.(files := o0.files + {DoApply(o.state.updateType)}), Idle), io);
          (o1, ToResult(io.saveOk, RebootRequired))
  }

  function Revert(o: Overlay, io: Io): (Overlay, CallResult) {
    if o.state.state == Idle then (o, Done)
    else if !io.clearOk then (Cleared(o, io), Failed("can't clear update dir"))
    else
      var o1 := Saved(WithState(Cleared(o, io), Idle), io);
      (o1, ToResult(io.saveOk, if o.bootWithUpdate then RebootRequired else Done))
  }

  function BootFailed(o: Overlay, err: Error): Overlay {
    if o.bootErr.None? then o.(bootErr := Some(err)) else o
  }

  function Init(o: Overlay, io: Io): (Overlay, Option<Error>) {
    if o.installed.None? then (BootFailed(o.(version := ""), "no version"), Some("no version"))
    else
      var o1 := o.(version := o.installed.value);
      if o1.state.state == Idle then (o1, None)
      else
        var o2 := if UpdatedFlag in o1.files then o1.(bootWithUpdate := true) else o1;
        var o3 := if FailedFlag in o2.files then BootFailed(o2, "boot failed") else o2;
        if FailedFlag in o3.files && !io.removeOk then (o3, Some("can't remove flag"))
        else
          var o4 := o3.(files := o3.files - {FailedFlag});
          (if o4.bootErr.None? then o4.(bootErr := io.check) else o4, None)
  }

  /** What a new process starts from: the record is read when the module is created. */
  function Fresh(o: Overlay): Overlay {
    o.(state := if o.stored.Some? then o.stored.value else NEW_RECORD, bootWithUpdate := false, bootErr := None,
        version := "")
  }

  /** What the early boot code leaves for a new process: the flag files, and the version of the system it mounted. */
  datatype EarlyBoot = EarlyBoot(files: set<File>, installed: Option<string>)

  function Booted(o: Overlay, boot: EarlyBoot): Overlay {
    Fresh(o.(files := boot.files, installed := boot.installed))
  }

  function Restarted(o: Overlay, boot: EarlyBoot, io: Io): Overlay {
    Init(Booted(o, boot), io).0
  }

  // ---------------------------------------------------------------- laws

  predicate Coherent(o: Overlay) {
    o.state == if o.stored.Some? then o.stored.value else NEW_RECORD
  }

  /** A Prepare that succeeds leaves the new image and nothing else, and the record in storage says so. */
  lemma PrepareReplacesImage(o: Overlay, imagePath: string, updateType: Option<string>, io: Io)
    requires Prepare(o, imagePath, updateType, io).1.None?
    ensures var prepared := Prepare(o, imagePath, updateType, io).0;
      && prepared.files == {ImageFile(imagePath)} && Coherent(prepared)
      && prepared.state.state == Prepared && updateType == Some(prepared.state.updateType)
  {
  }

  /** Prepare is accepted exactly outside an update under way, with well-formed annotations, the directory cleared, the
      image moved and the record stored. It leaves the new image and nothing else. */
  lemma PrepareExactly(o: Overlay, imagePath: string, updateType: Option<string>, io: Io)
    ensures var (o', err) := Prepare(o, imagePath, updateType, io);
      var begins := o.state.state != Updated && updateType.Some?;
      && (err.None? <==> begins && io.clearOk && io.renameOk && io.saveOk)
      && o' == o.(files := o'.files, state := o'.state, stored := o'.stored)
      && o'.state == (if begins then Record(Prepared, updateType.value) else o.state)
      && o'.stored == (if err.None? then Some(o'.state) else o.stored)
      && o'.files == (if !begins then o.files
                      else if !io.clearOk then o.files * io.left
                      else if io.renameOk then {ImageFile(imagePath)} else {})
  {
  }

  /** Update asks for a reboot exactly if it has left its request and recorded it; it succeeds exactly if the running
      system is the update, without a boot error, and the report of that could be removed. */
  lemma UpdateExactly(o: Overlay, io: Io)
    ensures var (o', result) := Update(o, io);
      && (result == RebootRequired <==> o.state.state == Prepared && io.writeOk && io.saveOk)
      && (result == Done <==> o.state.state == Updated && o.bootWithUpdate && o.bootErr.None? && io.removeOk)
      && o' == o.(files := o'.files, state := o'.state, stored := o'.stored)
      && o'.state == (if o.state.state == Prepared && io.writeOk then o.state.(state := Updated) else o.state)
      && o'.stored == (if result == RebootRequired then Some(o'.state) else o.stored)
      && o'.files == (if o.state.state == Prepared && io.writeOk then o.files + {DoUpdate(o.state.updateType)}
                      else if result == Done then o.files - {UpdatedFlag} else o.files)
  {
  }

  /** Apply asks for a reboot exactly if it has left its request for a verified update and recorded idle; from idle it
      clears the directory. The report of the update goes whatever happens. */
  lemma ApplyExactly(o: Overlay, io: Io)
    ensures var (o', result) := Apply(o, io);
      var reported := if io.removeOk then o.files - {UpdatedFlag} else o.files;
      && (result == RebootRequired <==> o.bootErr.None? && o.state.state == Updated && io.writeOk && io.saveOk)
      && (result == Done <==> o.bootErr.None? && o.state.state == Idle && io.clearOk)
      && o' == o.(files := o'.files, state := o'.state, stored := o'.stored)
      && o'.state == (if o.bootErr.None? && o.state.state == Updated && io.writeOk then o.state.(state := Idle)
                      else o.state)
      && o'.stored == (if result == RebootRequired then Some(o'.state) else o.stored)
      && o'.files == (if o.bootErr.Some? || o.state.state == Prepared then reported
                      else if o.state.state == Idle then (if io.clearOk then {} else reported * io.left)
                      else if io.writeOk then reported + {DoApply(o.state.updateType)} else reported)
  {
  }

  /** Revert asks for a reboot exactly if the update is running; it leaves nothing behind unless clearing fails. */
  lemma RevertExactly(o: Overlay, io: Io)
    ensures var (o', result) := Revert(o, io);
      && (result.Failed? <==> o.state.state != Idle && !(io.clearOk && io.saveOk))
      && (result == RebootRequired <==> !result.Failed? && o.state.state != Idle && o.bootWithUpdate)
      && (o.state.state == Idle ==> o' == o)
      && (o.state.state != Idle ==>
            && o' == o.(files := o'.files, state := o'.state, stored := o'.stored)
            && o'.state == (if io.clearOk then o.state.(state := Idle) else o.state)
            && o'.stored == (if result.Failed? then o.stored else Some(o'.state))
            && o'.files == if io.clearOk then {} else o.files * io.left)
  {
  }

  /** What Init makes of the files: the version, whether the update is running, and the first boot error there is. */
  lemma InitExactly(o: Overlay, io: Io)
    ensures var (o', err) := Init(o, io);
      var pending := o.installed.Some? && o.state.state != Idle;
      var failed := pending && FailedFlag in o.files;
      && (err.None? <==> o.installed.Some? && (failed ==> io.removeOk))
      && o' == o.(version := o'.version, bootWithUpdate := o'.bootWithUpdate, bootErr := o'.bootErr, files := o'.files)
      && o'.version == (if o.installed.Some? then o.installed.value else "")
      && (o'.bootWithUpdate <==> o.bootWithUpdate || (pending && UpdatedFlag in o.files))
      && o'.files == (if failed && io.removeOk then o.files - {FailedFlag} else o.files)
      && o'.bootErr == (if o.bootErr.Some? then o.bootErr
                        else if o.installed.None? then Some("no version")
                        else if failed then Some("boot failed")
                        else if pending then io.check else None)
  {
  }

  /** A new process finds the record as it was stored. So a request that was accepted is still prepared after any
      restart, and its Update asks the early boot code for an update of its type. */
  lemma RestartReadsRecord(o: Overlay, boot: EarlyBoot, io: Io)
    ensures var back := Restarted(o, boot, io);
      && back.stored == o.stored && Coherent(back)
      && (o.stored.Some? && o.stored.value.state == Prepared ==>
            forall updateIo: Io {:trigger Update(back, updateIo)} :: updateIo.writeOk && updateIo.saveOk ==>
              var (asked, result) := Update(back, updateIo);
              result == RebootRequired && DoUpdate(o.stored.value.updateType) in asked.files && Coherent(asked))
  {
    InitExactly(Booted(o, boot), io);
  }

  /** The update sequence: Update asks for a reboot and leaves its request; after it, Update succeeds exactly when the
      early boot code reports the update, the system has a version, and neither it nor the check reports an error. */
  lemma UpdateSucceedsIff(o: Overlay, io: Io, boot: EarlyBoot, initIo: Io, again: Io)
    requires o.state.state == Prepared && Update(o, io).1 == RebootRequired && again.removeOk
    ensures DoUpdate(o.state.updateType) in Update(o, io).0.files
    ensures Update(Restarted(Update(o, io).0, boot, initIo), again).1 == Done <==>
              UpdatedFlag in boot.files && FailedFlag !in boot.files && boot.installed.Some? && initIo.check.None?
  {
  }

  /** A successful Update consumes the flag it relies on: after another restart in which the early boot code does not
      set it again, the same Update fails. */
  lemma UpdateIsNotRepeatable(o: Overlay, io: Io, boot: EarlyBoot, initIo: Io, again: Io)
    requires Coherent(o) && Update(o, io).1 == Done && boot.files == Update(o, io).0.files
    ensures Update(Restarted(Update(o, io).0, boot, initIo), again).1 == Failed("boot with update failed")
  {
  }

  /** Apply after a verified update asks for one reboot and, called again, clears the update directory. */
  lemma ApplyTwice(o: Overlay, io: Io, boot: EarlyBoot, initIo: Io, again: Io)
    requires o.state.state == Updated && Apply(o, io).1 == RebootRequired && boot.installed.Some? && again.clearOk
    ensures DoApply(o.state.updateType) in Apply(o, io).0.files
    ensures var applied := Apply(Restarted(Apply(o, io).0, boot, initIo), again);
      applied.1 == Done && applied.0.files == {} && applied.0.state.state == Idle
  {
  }

  /** A revert that succeeds leaves nothing behind and asks for a reboot exactly when the update is running. */
  lemma RevertLeavesNothing(o: Overlay, io: Io)
    requires o.state.state != Idle && !Revert(o, io).1.Failed?
    ensures var (reverted, result) := Revert(o, io);
      reverted.files == {} && Coherent(reverted) && reverted.state.state == Idle
      && (result == RebootRequired <==> o.bootWithUpdate)
  {
  }

  /** Prepare and then Update. */
  function Asked(o: Overlay, imagePath: string, updateType: Option<string>, prepareIo: Io, updateIo: Io): (Overlay,
                 CallResult) {
    Update(Prepare(o, imagePath, updateType, prepareIo).0, updateIo)
  }

  /** A whole update. The image is applied only if the early boot code reported that it had booted with it and no
      failure; after the reboot for Apply, Apply leaves nothing behind. */
  lemma UpdateCycle(o: Overlay, imagePath: string, updateType: Option<string>, prepareIo: Io, updateIo: Io,
                    boot: EarlyBoot, initIo: Io, again: Io, applyIo: Io, boot2: EarlyBoot, initIo2: Io, last: Io)
    requires Prepare(o, imagePath, updateType, prepareIo).1.None?
    requires var asked := Asked(o, imagePath, updateType, prepareIo, updateIo);
      var back := Restarted(asked.0, boot, initIo);
      asked.1 == RebootRequired && Update(back, again).1 == Done
      && Apply(Update(back, again).0, applyIo).1 == RebootRequired
    ensures var back := Restarted(Asked(o, imagePath, updateType, prepareIo, updateIo).0, boot, initIo);
      var verified := Update(back, again).0;
      var requested := Apply(verified, applyIo).0;
      && UpdatedFlag in boot.files && FailedFlag !in boot.files && boot.installed.Some?
      && DoApply(updateType.value) in requested.files && Coherent(requested)
      && (last.clearOk && boot2.installed.Some? ==>
            var (done, result) := Apply(Restarted(requested, boot2, initIo2), last);
            result == Done && done.files == {} && Coherent(done) && done.state.state == Idle)
  {
    PrepareReplacesImage(o, imagePath, updateType, prepareIo);
  }

  /** An update that does not come up: Update fails, and a Revert that succeeds leaves nothing behind and asks for a
      reboot exactly if Init learned that the update was running. */
  lemma RollbackCycle(o: Overlay, imagePath: string, updateType: Option<string>, prepareIo: Io, updateIo: Io,
                      boot: EarlyBoot, initIo: Io, again: Io, revertIo: Io)
    requires Prepare(o, imagePath, updateType, prepareIo).1.None?
    requires Asked(o, imagePath, updateType, prepareIo, updateIo).1 == RebootRequired
    requires UpdatedFlag !in boot.files || FailedFlag in boot.files || boot.installed.None? || initIo.check.Some?
    ensures var back := Restarted(Asked(o, imagePath, updateType, prepareIo, updateIo).0, boot, initIo);
      var (reverted, result) := Revert(Update(back, again).0, revertIo);
      && Update(back, again).1.Failed? && Update(back, again).0 == back
      && (!result.Failed? ==>
            && reverted.files == {} && Coherent(reverted) && reverted.state.state == Idle
            && (result == RebootRequired <==> UpdatedFlag in boot.files && boot.installed.Some?))
  {
    var back := Restarted(Asked(o, imagePath, updateType, prepareIo, updateIo).0, boot, initIo);
    if !Revert(back, revertIo).1.Failed? {
      RevertLeavesNothing(back, revertIo);
    }
  }
}
