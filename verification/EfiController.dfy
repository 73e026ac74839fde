/** The EFI boot-variable controller: boot-order normalisation, one-shot boot selection and promotion. */
module EfiController {
  import opened Prelude
  import opened BootOrder

  /** The firmware variables BootOrder, BootNext and BootCurrent; None is a variable that cannot be read. */
  datatype EfiVars = EfiVars(order: Option<seq<u16>>, next: Option<u16>, current: Option<u16>)

  datatype CheckOutcome = Completed | VarFailed | IndexOutOfRange

  datatype Comparison = Same | Differs | PastEnd

  // ---------------------------------------------------------------- specification functions

  /** The first position of x in s. */
  function IndexOf(s: seq<u16>, x: u16): (r: Option<nat>)
    ensures r.Some? ==> r.value < |s| && s[r.value] == x && x !in s[..r.value]
    ensures r.None? <==> x !in s
  {
    if s == [] then None
    else if s[0] == x then Some(0)
    else
      match IndexOf(s[1..], x)
      case None => None
      case Some(i) => assert s[..i + 1] == [s[0]] + s[1..][..i]; Some(i + 1)
  }

  /** The index of the slot that is running; an unknown entry counts as slot 0. */
  function CurrentBoot(vars: EfiVars, items: seq<u16>): Result<nat> {
    if vars.current.None? then Err("can't read BootCurrent")
    else
      match IndexOf(items, vars.current.value)
      case Some(i) => Ok(i)
      case None => Ok(0)
  }

  /** The index of the slot the boot order starts with. */
  function MainBoot(vars: EfiVars, items: seq<u16>): Result<nat> {
    if vars.order.None? then Err("can't read BootOrder")
    else if vars.order.value == [] then Err("boot order is empty")
    else
      match IndexOf(items, vars.order.value[0])
      case Some(i) => Ok(i)
      case None => Err("boot item not found")
  }

  /** The boot order with the running entry exchanged with the first one. */
  function Promoted(order: seq<u16>, current: u16): (r: seq<u16>)
    ensures multiset(r) == multiset(order)
  {
    match IndexOf(order, current)
    case None => order
    case Some(i) => order[0 := order[i]][i := order[0]]
  }

  function BootOK(vars: EfiVars, items: seq<u16>, writeOk: bool): (EfiVars, Option<Error>) {
    if vars.order.None? then (vars, Some("can't read BootOrder"))
    else if vars.current.None? then (vars, Some("can't read BootCurrent"))
    else if vars.current.value !in items then (vars, None)
    else
      match IndexOf(vars.order.value, vars.current.value)
      case None => (vars, None)
      case Some(i) =>
        if i == 0 then (vars, None)
        else if !writeOk then (vars, Some("can't write BootOrder"))
        else (vars.(order := Some(Promoted(vars.order.value, vars.current.value))), None)
  }

  function MainBootSet(vars: EfiVars, items: seq<u16>, index: nat, writeOk: bool): (EfiVars, Option<Error>) {
    if index >= |items| then (vars, Some("wrong main boot index"))
    else if !writeOk then (vars, Some("can't write BootNext"))
    else (vars.(next := Some(items[index])), None)
  }

  /** What creating a controller does to the boot order. */
  function OrderCheck(vars: EfiVars, items: seq<u16>, writeOk: bool): (EfiVars, CheckOutcome) {
    if vars.order.None? then (vars, VarFailed)
    else
      var order, normalised := vars.order.value, Normalised(vars.order.value, items);
      if order < normalised then (vars, IndexOutOfRange)
      else if normalised <= order then (vars, Completed)
      else if writeOk then (vars.(order := Some(normalised)), Completed)
      else (vars, VarFailed)
  }

  // ---------------------------------------------------------------- the controller

  method AppendIfNotExist(slice: seq<u16>, newItem: u16) returns (r: seq<u16>)
    ensures r == AppendNew(slice, newItem)
  {
    for i := 0 to |slice|
      invariant newItem !in slice[..i]
    {
      if newItem == slice[i] { return slice; }
    }
    assert slice[..|slice|] == slice;
    return slice + [newItem];
  }

  class Controller {
    var vars: EfiVars
    var bootItems: seq<u16>

    method Contains(slice: seq<u16>, x: u16) returns (found: bool)
      ensures found <==> x in slice
    {
      found := false;
      for i := 0 to |slice|
        invariant found <==> x in slice[..i]
      {
        if slice[i] == x { found := true; }
      }
      assert slice[..|slice|] == slice;
    }

    /** Divides the boot order into module entries and others, without repetition. */
    method Divide(bootOrder: seq<u16>) returns (part: seq<u16>, others: seq<u16>)
      ensures part == Select(FirstOccurrences(bootOrder), bootItems, true)
      ensures others == Select(FirstOccurrences(bootOrder), bootItems, false)
    {
      hide FirstOccurrences, Select;
      others, part := [], [];
      NothingYet(bootOrder, bootItems);
      for k := 0 to |bootOrder|
        invariant part == FirstOccurrences(Select(bootOrder[..k], bootItems, true))
        invariant others == FirstOccurrences(Select(bootOrder[..k], bootItems, false))
      {
        DivideStep(bootOrder, k, bootItems, true);
        DivideStep(bootOrder, k, bootItems, false);
        var found := Contains(bootItems, bootOrder[k]);
        if found {
          part := AppendIfNotExist(part, bootOrder[k]);
        } else {
          others := AppendIfNotExist(others, bootOrder[k]);
        }
      }
      assert bootOrder[..|bootOrder|] == bootOrder;
      SelectCommutes(bootOrder, bootItems, true);
      SelectCommutes(bootOrder, bootItems, false);
    }

    /** Adds the module entries the order lacks; the length guard never skips one. */
    method AddMissing(part: seq<u16>) returns (r: seq<u16>)
      requires Distinct(part) && forall x :: x in part ==> x in bootItems
      ensures r == part + Select(FirstOccurrences(bootItems), part, false)
    {
      r := part;
      if |bootItems| > |part| {
        for k := 0 to |bootItems|
          invariant r == part + FirstOccurrences(Select(bootItems[..k], part, false))
        {
          MissingStep(part, bootItems, k);
          var present := Contains(r, bootItems[k]);
          if !present {
            r := AppendIfNotExist(r, bootItems[k]);
          }
        }
        assert bootItems[..|bootItems|] == bootItems;
        SelectCommutes(bootItems, part, false);
      } else {
        NoneMissing(part, bootItems);
      }
    }

    /** Compares entry by entry; the code indexes the old order with positions of the new one. */
    method Compare(newBootOrder: seq<u16>, bootOrder: seq<u16>) returns (r: Comparison)
      ensures r == PastEnd <==> bootOrder < newBootOrder
      ensures r == Same <==> newBootOrder <= bootOrder
    {
      for i := 0 to |newBootOrder|
        invariant i <= |bootOrder| && newBootOrder[..i] == bootOrder[..i]
      {
        if i >= |bootOrder| { return PastEnd; }
        if newBootOrder[i] != bootOrder[i] { return Differs; }
      }
      return Same;
    }

    /** Normalises the stored boot order. The comparison loop runs past the end of the stored order exactly
        when that order is a proper prefix of the normalised one. */
    method CheckBootOrder(writeOk: bool) returns (outcome: CheckOutcome)
      modifies `vars
      ensures (vars, outcome) == OrderCheck(old(vars), bootItems, writeOk)
    {
      if vars.order.None? { return VarFailed; }
      var bootOrder := vars.order.value;
      var partBootOrder, newBootOrder := Divide(bootOrder);
      FirstOccurrencesMeaning(bootOrder);
      SelectMeaning(FirstOccurrences(bootOrder), bootItems, true);
      MissingSame(bootOrder, bootItems);
      partBootOrder := AddMissing(partBootOrder);
      newBootOrder := partBootOrder + newBootOrder;
      var comparison := Compare(newBootOrder, bootOrder);
      if comparison == PastEnd { return IndexOutOfRange; }
      if comparison == Differs {
        if !writeOk { return VarFailed; }
        vars := vars.(order := Some(newBootOrder));
      }
      return Completed;
    }

    method GetCurrentBoot() returns (r: Result<nat>)
      ensures r == CurrentBoot(vars, bootItems)
    {
      if vars.current.None? { return Err("can't read BootCurrent"); }
      var i := Find(vars.current.value);
      return match i case Some(k) => Ok(k) case None => Ok(0);
    }

    method GetMainBoot() returns (r: Result<nat>)
      ensures r == MainBoot(vars, bootItems)
    {
      if vars.order.None? { return Err("can't read BootOrder"); }
      if |vars.order.value| == 0 { return Err("boot order is empty"); }
      var i := Find(vars.order.value[0]);
      return match i case Some(k) => Ok(k) case None => Err("boot item not found");
    }

    method Find(id: u16) returns (r: Option<nat>)
      ensures r == IndexOf(bootItems, id)
    {
      for i := 0 to |bootItems|
        invariant id !in bootItems[..i]
      {
        if id == bootItems[i] {
          FirstIndex(bootItems, id, i);
          return Some(i);
        }
      }
      assert bootItems[..|bootItems|] == bootItems;
      return None;
    }

    method SetMainBoot(index: nat, writeOk: bool) returns (err: Option<Error>)
      modifies `vars
      ensures (vars, err) == MainBootSet(old(vars), bootItems, index, writeOk)
    {
      if index >= |bootItems| { return Some("wrong main boot index"); }
      if !writeOk { return Some("can't write BootNext"); }
      vars := vars.(next := Some(bootItems[index]));
      return None;
    }

    method SetBootOK(writeOk: bool) returns (err: Option<Error>)
      modifies `vars
      ensures (vars, err) == BootOK(old(vars), bootItems, writeOk)
    {
      if vars.order.None? { return Some("can't read BootOrder"); }
      var bootOrder := vars.order.value;
      if vars.current.None? { return Some("can't read BootCurrent"); }
      var bootCurrent := vars.current.value;
      var found := Contains(bootItems, bootCurrent);
      if !found { return None; }
      var currentIndex := 0;
      for i := 0 to |bootOrder|
        invariant currentIndex == 0 && bootCurrent !in bootOrder[..i]
      {
        if bootCurrent == bootOrder[i] {
          FirstIndex(bootOrder, bootCurrent, i);
          currentIndex := i;
          break;
        }
      }
      assert bootOrder[..|bootOrder|] == bootOrder;
      if currentIndex != 0 {
        bootOrder := bootOrder[0 := bootOrder[currentIndex]][currentIndex := bootOrder[0]];
        if !writeOk { return Some("can't write BootOrder"); }
        vars := vars.(order := Some(bootOrder));
      }
      return None;
    }
  }

  // ---------------------------------------------------------------- lemmas

  lemma FirstIndex(s: seq<u16>, x: u16, i: nat)
    requires i < |s| && s[i] == x && x !in s[..i]
    ensures IndexOf(s, x) == Some(i)
  {
  }

  /** One turn of the loop that divides the order. */
  lemma DivideStep(order: seq<u16>, k: nat, items: seq<u16>, inside: bool)
    requires k < |order|
    ensures FirstOccurrences(Select(order[..k + 1], items, inside))
         == var found := FirstOccurrences(Select(order[..k], items, inside));
            if (order[k] in items) == inside then AppendNew(found, order[k]) else found
  {
    assert order[..k + 1] == order[..k] + [order[k]];
    Snoc(order[..k], order[k], items, inside);
    Snoc(Select(order[..k], items, inside), order[k], [], true);
  }

  lemma NothingYet(order: seq<u16>, items: seq<u16>)
    ensures forall inside :: FirstOccurrences(Select(order[..0], items, inside)) == []
  {
  }

  function AppendMissing(part: seq<u16>, found: seq<u16>, x: u16): seq<u16> {
    if x in part + found then found else found + [x]
  }

  /** One turn of the loop that looks for missing entries, where the list searched grows with them. */
  lemma MissingStep(part: seq<u16>, items: seq<u16>, k: nat)
    requires k < |items|
    ensures FirstOccurrences(Select(items[..k + 1], part, false))
         == AppendMissing(part, FirstOccurrences(Select(items[..k], part, false)), items[k])
  {
    var missing := Select(items[..k], part, false);
    assert items[..k + 1] == items[..k] + [items[k]];
    Snoc(items[..k], items[k], part, false);
    Snoc(missing, items[k], [], true);
    FirstOccurrencesMeaning(missing);
    SelectMeaning(items[..k], part, false);
  }

  function Elements(s: seq<u16>): set<u16> {
    set x | x in s
  }

  lemma {:induction false} ElementCount(s: seq<u16>)
    ensures |Elements(s)| <= |s|
    ensures Distinct(s) ==> |Elements(s)| == |s|
  {
    if s == [] {
      assert Elements(s) == {};
    } else {
      var front, last := s[..|s| - 1], s[|s| - 1];
      ElementCount(front);
      assert s == front + [last];
      assert Elements(s) == Elements(front) + {last};
      if Distinct(s) {
        assert last !in front;
      }
    }
  }

  /** Pigeonhole: as many distinct module entries as there are modules leave none missing. */
  lemma AllPresent(part: seq<u16>, items: seq<u16>)
    requires Distinct(part) && (forall x :: x in part ==> x in items)
    requires |items| <= |part|
    ensures forall x :: x in items ==> x in part
  {
    ElementCount(part);
    ElementCount(items);
    assert Elements(part) <= Elements(items);
    if Elements(part) < Elements(items) {
      SmallerSet(Elements(part), Elements(items));
    }
    assert forall x :: x in items ==> x in Elements(items);
  }

  lemma NoneMissing(part: seq<u16>, items: seq<u16>)
    requires Distinct(part) && (forall x :: x in part ==> x in items)
    requires |items| <= |part|
    ensures Select(FirstOccurrences(items), part, false) == []
  {
    AllPresent(part, items);
    FirstOccurrencesMeaning(items);
    SelectAll(FirstOccurrences(items), part, true);
  }

  lemma SmallerSet(a: set<u16>, b: set<u16>)
    requires a < b
    ensures |a| < |b|
  {
    assert b == a + (b - a);
    assert |b - a| > 0;
  }

  /** An entry is missing from the whole order exactly when it is missing from its module part. */
  lemma {:induction false} SelectSame(s: seq<u16>, a: seq<u16>, b: seq<u16>)
    requires forall x :: x in s ==> (x in a <==> x in b)
    ensures Select(s, a, false) == Select(s, b, false)
  {
    if s != [] {
      SelectSame(s[..|s| - 1], a, b);
    }
  }

  lemma MissingSame(order: seq<u16>, items: seq<u16>)
    ensures Select(FirstOccurrences(items), FirstOccurrences(order), false)
         == Select(FirstOccurrences(items), Select(FirstOccurrences(order), items, true), false)
  {
    var effective := FirstOccurrences(order);
    FirstOccurrencesMeaning(items);
    SelectMeaning(effective, items, true);
    SelectSame(FirstOccurrences(items), effective, Select(effective, items, true));
  }
}
