/** The overlay update module as the source writes it: methods that assign its fields and create or delete flag
    files in order. */
module OverlayModule {
  import opened Prelude
  import opened Spec = Overlay

  class Module {
    var files: set<File>
    var installed: Option<string>
    var stored: Option<Record>
    var state: Record
    var bootWithUpdate: bool
    var bootErr: Option<Error>
    var version: string

    ghost function View(): Overlay
      reads this
    {
      Overlay.Overlay(files, installed, stored, state, bootWithUpdate, bootErr, version)
    }

    constructor (files: set<File>, installed: Option<string>, stored: Option<Record>)
      ensures View() == Spec.Fresh(View()) && this.files == files && this.installed == installed &&
              this.stored == stored
    {
      this.files, this.installed, this.stored := files, installed, stored;
      state := if stored.Some? then stored.value else NEW_RECORD;
      bootWithUpdate, bootErr, version := false, None, "";
    }

    method ClearUpdateDir(io: Io) returns (ok: bool)
      modifies `files
      ensures View() == Spec.Cleared(old(View()), io) && ok == io.clearOk
    {
      ok := io.clearOk;
      files := if ok then {} else files * io.left;
    }

    method SaveState(io: Io) returns (ok: bool)
      modifies `stored
      ensures View() == Spec.Saved(old(View()), io) && ok == io.saveOk
    {
      ok := io.saveOk;
      if ok { stored := Some(state); }
    }

    method Prepare(imagePath: string, updateType: Option<string>, io: Io) returns (err: Option<Error>)
      modifies this
      ensures (View(), err) == Spec.Prepare(old(View()), imagePath, updateType, io)
    {
      if state.state != Idle && state.state != Prepared { return Some("wrong state"); }
      if updateType.None? { return Some("malformed annotations"); }
      state := Record(Prepared, updateType.value);
      var ok := ClearUpdateDir(io);
      if !ok { return Some("can't clear update dir"); }
      if !io.renameOk { return Some("can't move image"); }
      files := files + {ImageFile(imagePath)};
      ok := SaveState(io);
      return if ok then None else Some("save failed");
    }

    method Update(io: Io) returns (r: CallResult)
      modifies this
      ensures (View(), r) == Spec.Update(old(View()), io)
    {
      if state.state == Updated {
        if !bootWithUpdate { return Failed("boot with update failed"); }
        if bootErr.Some? { return Failed(bootErr.value); }
        if !io.removeOk { return Failed("can't remove flag"); }
        files := files - {UpdatedFlag};
        return Done;
      }
      if state.state != Prepared { return Failed("wrong state"); }
      if !io.writeOk { return Failed("can't write flag"); }
      files := files + {DoUpdate(state.updateType)};
      state := state.(state := Updated);
      var ok := SaveState(io);
      return if ok then RebootRequired else Failed("save failed");
    }

    method Apply(io: Io) returns (r: CallResult)
      modifies this
      ensures (View(), r) == Spec.Apply(old(View()), io)
    {
      if io.removeOk { files := files - {UpdatedFlag}; }
      if bootErr.Some? { return Failed(bootErr.value); }
      if state.state == Idle {
        var cleared := ClearUpdateDir(io);
        return if cleared then Done else Failed("can't clear update dir");
      }
      if state.state != Updated { return Failed("wrong state"); }
      if !io.writeOk { return Failed("can't write flag"); }
      files := files + {DoApply(state.updateType)};
      state := state.(state := Idle);
      var ok := SaveState(io);
      return if ok then RebootRequired else Failed("save failed");
    }

    method Revert(io: Io) returns (r: CallResult)
      modifies this
      ensures (View(), r) == Spec.Revert(old(View()), io)
    {
      if state.state == Idle { return Done; }
      var ok := ClearUpdateDir(io);
      if !ok { return Failed("can't clear update dir"); }
      state := state.(state := Idle);
      ok := SaveState(io);
      if !ok { return Failed("save failed"); }
      return if bootWithUpdate then RebootRequired else Done;
    }

    method Init(io: Io) returns (err: Option<Error>)
      modifies this
      ensures (View(), err) == Spec.Init(old(View()), io)
    {
      version := if installed.Some? then installed.value else "";
      if installed.None? {
        if bootErr.None? { bootErr := Some("no version"); }
        return Some("no version");
      }
      if state.state == Idle { return None; }
      if UpdatedFlag in files { bootWithUpdate := true; }
      if FailedFlag in files {
        if bootErr.None? { bootErr := Some("boot failed"); }
        if !io.removeOk { return Some("can't remove flag"); }
        files := files - {FailedFlag};
      }
      assert files == files - {FailedFlag};
      if bootErr.None? { bootErr := io.check; }
      return None;
    }
  }
}
