/** The boot manager of section 3.1.1 of the UEFI Specification 2.10, as far as a boot entry is chosen. */
module Firmware {
  import opened Prelude
  import opened EfiController

  /** The entries that come up when the firmware tries them during one power cycle. */
  type Up = set<u16>

  /** BootNext is tried once and before anything else, then the entries of BootOrder from the front. */
  function Chosen(vars: EfiVars, up: Up): Option<u16> {
    if vars.next.Some? && vars.next.value in up then vars.next
    else if vars.order.Some? then FirstUp(vars.order.value, up)
    else None
  }

  function FirstUp(order: seq<u16>, up: Up): Option<u16> {
    if order == [] then None
    else if order[0] in up then Some(order[0])
    else FirstUp(order[1..], up)
  }

  function PowerOn(vars: EfiVars, up: Up): EfiVars {
    vars.(next := None, current := Chosen(vars, up))
  }

  /** One power cycle after the other. */
  function PowerCycles(vars: EfiVars, boots: seq<Up>): EfiVars {
    if boots == [] then vars else PowerOn(PowerCycles(vars, boots[..|boots| - 1]), boots[|boots| - 1])
  }

  lemma {:induction false} CyclesConsumeOnlyBootNext(vars: EfiVars, boots: seq<Up>)
    ensures PowerCycles(vars, boots).order == vars.order
    ensures PowerCycles(vars, boots).next == if boots == [] then vars.next else None
  {
    if boots != [] {
      CyclesConsumeOnlyBootNext(vars, boots[..|boots| - 1]);
    }
  }

  /** The entry selected for one boot is tried in the first power cycle and in no other. */
  lemma TriedOnce(vars: EfiVars, boots: seq<Up>)
    requires boots != [] && vars.order.Some?
    ensures PowerCycles(vars, boots).current
         == if |boots| == 1 && vars.next.Some? && vars.next.value in boots[0] then vars.next
            else FirstUp(vars.order.value, boots[|boots| - 1])
  {
    CyclesConsumeOnlyBootNext(vars, boots[..|boots| - 1]);
  }
}
