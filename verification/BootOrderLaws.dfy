/** What normalisation and promotion of the boot order achieve. */
module BootOrderLaws {
  import opened Prelude
  import opened BootOrder
  import opened EfiController

  /** The leading entries of the order are exactly the module entries. */
  ghost predicate Leading(order: seq<u16>, items: seq<u16>) {
    exists n :: 0 < n <= |order| && LeadingN(order, items, n)
  }

  ghost predicate LeadingN(order: seq<u16>, items: seq<u16>, n: nat)
    requires n <= |order|
  {
    forall x :: x in items <==> x in order[..n]
  }

  /** The stored order after a check that completes. */
  function Checked(order: seq<u16>, items: seq<u16>): seq<u16> {
    var normalised := Normalised(order, items);
    if normalised <= order then order else normalised
  }

  lemma NormalisedMeaning(order: seq<u16>, items: seq<u16>)
    ensures Distinct(Normalised(order, items))
    ensures forall x :: x in Normalised(order, items) <==> x in order || x in items
  {
    var effective := FirstOccurrences(order);
    FirstOccurrencesMeaning(order);
    FirstOccurrencesMeaning(items);
    SelectMeaning(effective, items, true);
    SelectMeaning(FirstOccurrences(items), effective, false);
    SelectMeaning(effective, items, false);
    var part, missing := Select(effective, items, true), Select(FirstOccurrences(items), effective, false);
    DistinctConcat(part, missing);
    DistinctConcat(part + missing, Select(effective, items, false));
  }

  lemma DistinctConcat(s: seq<u16>, t: seq<u16>)
    requires Distinct(s) && Distinct(t) && forall x :: x in s ==> x !in t
    ensures Distinct(s + t)
  {
    forall i, j | 0 <= i < j < |s + t| ensures (s + t)[i] != (s + t)[j] {
      if i < |s| <= j {
        assert s[i] in s && t[j - |s|] in t;
      }
    }
  }

  /** The comparison runs past the end exactly when the order lacks a module entry and has neither a
      foreign entry nor a repetition that would show a difference earlier. */
  lemma PastEndIff(order: seq<u16>, items: seq<u16>)
    ensures order < Normalised(order, items)
      <==> Distinct(order) && (forall x :: x in order ==> x in items) && (exists x :: x in items && x !in order)
  {
    var normalised := Normalised(order, items);
    NormalisedMeaning(order, items);
    FirstOccurrencesMeaning(order);
    if Distinct(order) && (forall x :: x in order ==> x in items) && (exists x :: x in items && x !in order) {
      SelectAll(order, items, true);
      assert order <= normalised;
    }
    if order < normalised {
      PrefixDistinct(order, normalised);
      PrefixIsAllModules(order, items);
      assert normalised[|order|] in normalised;
    }
  }

  /** The shortest such order: one of two module entries is missing and nothing else is stored. */
  lemma PastEndInput(vars: EfiVars, writeOk: bool)
    requires vars.order == Some([1])
    ensures OrderCheck(vars, [1, 2], writeOk) == (vars, IndexOutOfRange)
  {
    assert 2 in [1, 2] && 2 !in [1];
    PastEndIff([1], [1, 2]);
  }

  lemma PrefixDistinct(s: seq<u16>, t: seq<u16>)
    requires s <= t && Distinct(t)
    ensures Distinct(s)
    ensures |s| < |t| ==> t[|s|] !in s
  {
    assert forall i :: 0 <= i < |s| ==> s[i] == t[i];
  }

  lemma PrefixIsAllModules(order: seq<u16>, items: seq<u16>)
    requires Distinct(order) && order < Normalised(order, items)
    ensures forall x :: x in order ==> x in items
  {
    var normalised := Normalised(order, items);
    var part, missing, others := Select(order, items, true), Select(FirstOccurrences(items), order, false),
        Select(order, items, false);
    FirstOccurrencesMeaning(order);
    FirstOccurrencesMeaning(items);
    assert normalised == part + missing + others;
    SelectMeaning(order, items, true);
    SelectMeaning(order, items, false);
    SelectMeaning(FirstOccurrences(items), order, false);
    SelectLengths(order, items);
    // |normalised| exceeds |order| by |missing|, so some entry is missing; were there a foreign entry, the
    // first missing one would stand at a position of the order itself
    assert |missing| > 0 && missing[0] in missing;
    assert normalised[|part|] == missing[0];
    assert |part| == |order|;
    assert others == [];
  }

  lemma {:induction false} SelectLengths(s: seq<u16>, items: seq<u16>)
    ensures |Select(s, items, true)| + |Select(s, items, false)| == |s|
  {
    if s != [] {
      SelectLengths(s[..|s| - 1], items);
    }
  }

  /** Whenever the check completes, the order the firmware will effectively follow is the normalised one,
      whether or not anything was rewritten. */
  lemma CheckedIsEffective(order: seq<u16>, items: seq<u16>)
    ensures FirstOccurrences(Checked(order, items)) == Normalised(order, items)
  {
    NormalisedMeaning(order, items);
    if Normalised(order, items) <= order {
      PrefixIsEffective(Normalised(order, items), order);
    } else {
      FirstOccurrencesMeaning(Normalised(order, items));
    }
  }

  lemma PrefixIsEffective(s: seq<u16>, order: seq<u16>)
    requires Distinct(s) && s <= order && forall x :: x in order ==> x in s
    ensures FirstOccurrences(order) == s
  {
    FirstOccurrencesMeaning(s);
    assert order == s + order[|s|..];
    Absorbed(s, order[|s|..]);
  }

  lemma {:induction false} Absorbed(s: seq<u16>, t: seq<u16>)
    requires forall x :: x in s + t ==> x in s
    ensures FirstOccurrences(s + t) == FirstOccurrences(s)
  {
    if t == [] {
      assert s + t == s;
    } else {
      var front, last := t[..|t| - 1], t[|t| - 1];
      assert t == front + [last] && (s + t) == (s + front) + [last];
      assert forall x :: x in s + front ==> x in s + t;
      assert last in s + t;
      Absorbed(s, front);
      Snoc(s + front, last, [], true);
      FirstOccurrencesMeaning(s);
    }
  }

  /** A second check finds nothing to rewrite and cannot run past the end. */
  lemma CheckIsIdempotent(order: seq<u16>, items: seq<u16>)
    ensures Normalised(Checked(order, items), items) == Normalised(order, items) <= Checked(order, items)
  {
    CheckedIsEffective(order, items);
    NormalisedMeaning(order, items);
    var modules, others := Pieces(order, items);
    NormalisedFrom(Checked(order, items), items, modules, others);
  }

  /** An order that is effectively all module entries followed by foreign ones is normal already. */
  lemma NormalisedFrom(order: seq<u16>, items: seq<u16>, modules: seq<u16>, others: seq<u16>)
    requires FirstOccurrences(order) == modules + others
    requires (forall x :: x in modules <==> x in items) && (forall x :: x in others ==> x !in items)
    ensures Normalised(order, items) == modules + others
  {
    SelectOfSplit(modules, others, items);
    NothingMissing(items, modules + others);
    assert Normalised(order, items) == modules + [] + others;
  }

  lemma NothingMissing(items: seq<u16>, order: seq<u16>)
    requires forall x :: x in items ==> x in order
    ensures Select(FirstOccurrences(items), order, false) == []
  {
    FirstOccurrencesMeaning(items);
    SelectAll(FirstOccurrences(items), order, true);
  }

  /** The normalised order is all module entries followed by all foreign ones. */
  lemma Pieces(order: seq<u16>, items: seq<u16>) returns (modules: seq<u16>, others: seq<u16>)
    ensures Normalised(order, items) == modules + others
    ensures forall x :: x in modules <==> x in items
    ensures forall x :: x in others ==> x !in items
  {
    var effective := FirstOccurrences(order);
    var part, missing := Select(effective, items, true), Select(FirstOccurrences(items), effective, false);
    FirstOccurrencesMeaning(items);
    SelectMeaning(effective, items, true);
    SelectMeaning(effective, items, false);
    SelectMeaning(FirstOccurrences(items), effective, false);
    modules, others := part + missing, Select(effective, items, false);
  }

  lemma SelectOfSplit(s: seq<u16>, t: seq<u16>, items: seq<u16>)
    requires (forall x :: x in s ==> x in items) && (forall x :: x in t ==> x !in items)
    ensures Select(s + t, items, true) == s && Select(s + t, items, false) == t
  {
    SelectConcat(s, t, items, true);
    SelectConcat(s, t, items, false);
    SelectAll(s, items, true);
    SelectAll(t, items, false);
  }

  lemma {:induction false} SelectConcat(s: seq<u16>, t: seq<u16>, items: seq<u16>, inside: bool)
    ensures Select(s + t, items, inside) == Select(s, items, inside) + Select(t, items, inside)
  {
    if t == [] {
      assert s + t == s;
    } else {
      var front, last := t[..|t| - 1], t[|t| - 1];
      SelectConcat(s, front, items, inside);
      assert s + t == (s + front) + [last];
      Snoc(s + front, last, items, inside);
    }
  }

  /** After a completed check the module entries lead the order. */
  lemma CheckedLeads(order: seq<u16>, items: seq<u16>)
    requires items != []
    ensures Leading(Checked(order, items), items)
  {
    var checked := Checked(order, items);
    var modules, others := Pieces(order, items);
    assert checked[..|modules|] == modules;
    assert items[0] in modules;
    assert LeadingN(checked, items, |modules|);
  }

  /** Promotion permutes the order, keeps the module entries in front and makes the running slot the main one;
      looking up the main slot cannot fail. */
  lemma PromotionKeepsModulesInFront(vars: EfiVars, items: seq<u16>)
    requires vars.order.Some? && vars.current.Some? && Leading(vars.order.value, items)
    ensures var (vars', err) := BootOK(vars, items, true);
      err.None? && vars'.order.Some?
      && multiset(vars'.order.value) == multiset(vars.order.value)
      && Leading(vars'.order.value, items)
      && MainBoot(vars', items).Ok?
      && (vars.current.value in items ==> MainBoot(vars', items) == CurrentBoot(vars', items))
  {
    var order, current := vars.order.value, vars.current.value;
    var n :| 0 < n <= |order| && LeadingN(order, items, n);
    var order' := BootOK(vars, items, true).0.order.value;
    if current in items {
      var j :| 0 <= j < n && order[..n][j] == current;
      assert order[j] == current;
      var i := IndexOf(order, current).value;
      assert current in order[..n];
      forall x ensures x in items <==> x in order'[..n] {
        SwappedMembers(order, i, n, x);
      }
      assert order' == order[0 := order[i]][i := order[0]];
    }
    assert LeadingN(order', items, n);
    assert order'[..n][0] in items;
  }

  /** What SetBootOK leaves: if the running entry is the module's and stands behind the first, the two have changed
      places and every other entry stays; otherwise nothing has changed. It fails exactly if the order has to be written
      and cannot. */
  lemma BootOKSwaps(vars: EfiVars, items: seq<u16>, writeOk: bool, i: nat)
    requires vars.order.Some? && vars.current.Some? && i < |vars.order.value|
    requires vars.order.value[i] == vars.current.value && vars.current.value !in vars.order.value[..i]
    ensures var (vars', err) := BootOK(vars, items, writeOk);
      var order, moves := vars.order.value, vars.current.value in items && i > 0;
      && (err.Some? <==> moves && !writeOk)
      && (!moves || err.Some? ==> vars' == vars)
      && (moves && err.None? ==>
            && vars'.order.Some? && |vars'.order.value| == |order| && vars' == vars.(order := vars'.order)
            && vars'.order.value[0] == order[i] && vars'.order.value[i] == order[0]
            && forall k :: 0 < k < |order| && k != i ==> vars'.order.value[k] == order[k])
  {
    FirstIndex(vars.order.value, vars.current.value, i);
  }

  /** An entry that is not in the order, or a variable that cannot be read. */
  lemma BootOKElsewhere(vars: EfiVars, items: seq<u16>, writeOk: bool)
    requires vars.order.None? || vars.current.None? || vars.current.value !in vars.order.value
    ensures BootOK(vars, items, writeOk).0 == vars
    ensures BootOK(vars, items, writeOk).1.Some? <==> vars.order.None? || vars.current.None?
  {
  }

  lemma SwappedMembers(s: seq<u16>, i: nat, n: nat, x: u16)
    requires i < n <= |s|
    ensures x in s[..n] <==> x in s[0 := s[i]][i := s[0]][..n]
  {
    var t := s[0 := s[i]][i := s[0]];
    assert multiset(t[..n]) == multiset(s[..n]) by {
      assert t[..n] == s[..n][0 := s[..n][i]][i := s[..n][0]];
    }
    assert x in s[..n] <==> x in multiset(s[..n]);
    assert x in t[..n] <==> x in multiset(t[..n]);
  }

  /** An order the check leaves as it is. */
  predicate IsNormal(order: seq<u16>, items: seq<u16>) {
    Normalised(order, items) <= order
  }

  /** Promotion leaves a normal order normal. */
  lemma PromotionKeepsNormal(order: seq<u16>, items: seq<u16>, current: u16)
    requires IsNormal(order, items) && current in items
    ensures IsNormal(Promoted(order, current), items)
  {
    var modules, others := Pieces(order, items);
    NormalisedMeaning(order, items);
    hide Normalised, Promoted;
    var rest := order[|modules + others|..];
    assert order == modules + (others + rest);
    var modules' := PromotedInFront(modules, others, rest, current);
    SwappedIsNormal(modules', others, rest, items);
    assert modules' + others + rest == modules' + (others + rest);
  }

  /** An entry of the leading part is exchanged within that part. */
  lemma PromotedInFront(front: seq<u16>, others: seq<u16>, rest: seq<u16>, current: u16) returns (front': seq<u16>)
    requires current in front && Distinct(front + others)
    ensures Promoted(front + (others + rest), current) == front' + (others + rest)
    ensures Distinct(front' + others) && forall x :: x in front' <==> x in front
  {
    var i := FoundInFront(front, others + rest, current);
    front' := front[0 := front[i]][i := front[0]];
    SwappedDistinct(front, others, i);
    forall x ensures x in front' <==> x in front {
      SwappedMembers(front, i, |front|, x);
      assert front[..|front|] == front && front'[..|front|] == front';
    }
    assert (front + (others + rest))[0 := front[i]][i := front[0]] == front' + (others + rest);
  }

  lemma {:induction false} FoundInFront(front: seq<u16>, rest: seq<u16>, x: u16) returns (i: nat)
    requires x in front
    ensures i < |front| && IndexOf(front + rest, x) == Some(i)
  {
    if front[0] == x {
      i := 0;
    } else {
      i := FoundInFront(front[1..], rest, x);
      assert (front + rest)[1..] == front[1..] + rest;
      i := i + 1;
    }
  }

  lemma SwappedIsNormal(modules: seq<u16>, others: seq<u16>, rest: seq<u16>, items: seq<u16>)
    requires Distinct(modules + others) && (forall x :: x in modules <==> x in items) &&
             (forall x :: x in others ==> x !in items)
    requires forall x :: x in rest ==> x in modules + others
    ensures IsNormal(modules + others + rest, items)
  {
    PrefixIsEffective(modules + others, modules + others + rest);
    NormalisedFrom(modules + others + rest, items, modules, others);
  }

  lemma SwappedDistinct(s: seq<u16>, t: seq<u16>, i: nat)
    requires i < |s| && Distinct(s + t)
    ensures Distinct(s[0 := s[i]][i := s[0]] + t)
  {
    var u, v := s + t, s[0 := s[i]][i := s[0]] + t;
    assert forall k :: 0 <= k < |u| ==> v[k] == u[if k == 0 then i else if k == i then 0 else k];
  }

  /** After a completed check the first entry is a module entry, the order is normal, and the running entry stands at
      the front already or can be promoted. */
  lemma CheckedOrder(order: seq<u16>, items: seq<u16>)
    requires items != []
    ensures Checked(order, items) != [] && Checked(order, items)[0] in items
    ensures IsNormal(Checked(order, items), items)
    ensures forall x :: x in items ==> x in Checked(order, items)
    ensures order != [] && order[0] in items ==> Checked(order, items)[0] == order[0]
    ensures IsNormal(order, items) ==> Checked(order, items) == order
  {
    CheckIsIdempotent(order, items);
    NormalisedMeaning(order, items);
    var modules, others := Pieces(order, items);
    assert items[0] in modules;
    assert modules[0] in modules;
    if order != [] && order[0] in items {
      HeadStays(order, items);
    }
  }

  lemma {:induction false} HeadStays(order: seq<u16>, items: seq<u16>)
    requires order != [] && order[0] in items
    ensures FirstOccurrences(order) != [] && FirstOccurrences(order)[0] == order[0]
    ensures Select(FirstOccurrences(order), items, true) != [] &&
            Select(FirstOccurrences(order), items, true)[0] == order[0]
  {
    var front, last := order[..|order| - 1], order[|order| - 1];
    if front == [] {
      assert FirstOccurrences(front) == [];
      assert order == [] + [last];
      Snoc([], last, items, true);
    } else {
      HeadStays(front, items);
      if last !in FirstOccurrences(front) {
        Snoc(FirstOccurrences(front), last, items, true);
      }
    }
  }

  // ---------------------------------------------------------------- which entry comes before which

  /** An occurrence of a with no b up to it: the first a comes before the first b. */
  ghost predicate Before(order: seq<u16>, a: u16, b: u16) {
    a != b && exists i :: 0 <= i < |order| && order[i] == a && b !in order[..i]
  }

  lemma BeforeSnoc(s: seq<u16>, x: u16, a: u16, b: u16)
    ensures Before(s + [x], a, b) <==> Before(s, a, b) || (x == a && a != b && b !in s)
  {
    var t := s + [x];
    if i :| 0 <= i < |s| && s[i] == a && b !in s[..i] {
      assert t[i] == a && t[..i] == s[..i];
    }
    if i :| 0 <= i < |t| && t[i] == a && b !in t[..i] {
      assert t[..i] == s[..i];
      assert i == |s| ==> s[..i] == s;
    }
    if x == a && b !in s {
      assert t[|s|] == a && t[..|s|] == s;
    }
  }

  lemma {:induction false} BeforeInFirst(s: seq<u16>, a: u16, b: u16)
    ensures Before(FirstOccurrences(s), a, b) <==> Before(s, a, b)
  {
    if s != [] {
      var front, last := s[..|s| - 1], s[|s| - 1];
      assert s == front + [last];
      BeforeInFirst(front, a, b);
      FirstOccurrencesMeaning(front);
      BeforeSnoc(front, last, a, b);
      BeforeSnoc(FirstOccurrences(front), last, a, b);
      if last == a && last in front && b !in front { BeforeIfPresent(front, a, b); }
    }
  }

  lemma BeforeIfPresent(s: seq<u16>, a: u16, b: u16)
    requires a in s && b !in s
    ensures Before(s, a, b)
  {
    var i :| 0 <= i < |s| && s[i] == a;
    assert b !in s[..i];
  }

  lemma {:induction false} BeforeInSelect(s: seq<u16>, items: seq<u16>, inside: bool, a: u16, b: u16)
    requires (a in items) == inside && (b in items) == inside
    ensures Before(Select(s, items, inside), a, b) <==> Before(s, a, b)
  {
    if s != [] {
      var front, last := s[..|s| - 1], s[|s| - 1];
      assert s == front + [last];
      BeforeInSelect(front, items, inside, a, b);
      SelectMeaning(front, items, inside);
      BeforeSnoc(front, last, a, b);
      BeforeSnoc(Select(front, items, inside), last, a, b);
    }
  }

  lemma {:induction false} BeforeInConcat(s: seq<u16>, t: seq<u16>, a: u16, b: u16)
    ensures a != b ==>
              (Before(s + t, a, b) <==>
                 Before(s, a, b) || (a in s && b !in s) || (a !in s && b !in s && Before(t, a, b)))
  {
    if t == [] {
      assert s + t == s;
      if a in s && b !in s { BeforeIfPresent(s, a, b); }
    } else {
      var front, last := t[..|t| - 1], t[|t| - 1];
      assert t == front + [last] && s + t == (s + front) + [last];
      BeforeInConcat(s, front, a, b);
      BeforeSnoc(s + front, last, a, b);
      BeforeSnoc(front, last, a, b);
      if a in s + front && b !in s + front { BeforeIfPresent(s + front, a, b); }
    }
  }

  /** The list a check leaves, without reference to how it is computed. Of two entries of the same kind that were both
      in the old order, the same one comes first; module entries come before foreign ones; module entries that were
      missing come after those that were not, in the order of the module's own list. */
  ghost predicate Arranged(order: seq<u16>, items: seq<u16>, checked: seq<u16>) {
    && (forall x :: x in checked <==> x in order || x in items)
    && (forall a, b :: a in order && b in order && (a in items <==> b in items) ==>
          (Before(checked, a, b) <==> Before(order, a, b)))
    && (forall a, b :: a in items && b in order && b !in items ==> Before(checked, a, b))
    && (forall a, b :: a in items && a in order && b in items && b !in order ==> Before(checked, a, b))
    && (forall a, b :: a in items && a !in order && b in items && b !in order ==>
          (Before(checked, a, b) <==> Before(items, a, b)))
  }

  /** Which of two entries of the normalised order comes first. */
  lemma NormalisedBefore(order: seq<u16>, items: seq<u16>, a: u16, b: u16)
    requires a in order || a in items
    requires b in order || b in items
    requires a != b
    ensures Before(Normalised(order, items), a, b) <==>
              if a in items && b in items then
                if b in order then a in order && Before(order, a, b)
                else a in order || Before(items, a, b)
              else if a in items then true
              else b !in items && Before(order, a, b)
  {
    var effective := FirstOccurrences(order);
    var part, missing, others := Select(effective, items, true), Select(FirstOccurrences(items), effective, false),
        Select(effective, items, false);
    FirstOccurrencesMeaning(order);
    FirstOccurrencesMeaning(items);
    SelectMeaning(effective, items, true);
    SelectMeaning(FirstOccurrences(items), effective, false);
    SelectMeaning(effective, items, false);
    BeforeInConcat(part + missing, others, a, b);
    BeforeInConcat(part, missing, a, b);
    BeforeInFirst(order, a, b);
    BeforeInFirst(items, a, b);
    if a in items && b in items { BeforeInSelect(effective, items, true, a, b); }
    if a !in items && b !in items { BeforeInSelect(effective, items, false, a, b); }
    if a !in order && b !in order { BeforeInSelect(FirstOccurrences(items), effective, false, a, b); }
    BeforeMembers(part, a, b);
    BeforeMembers(missing, a, b);
    BeforeMembers(others, a, b);
    BeforeMembers(order, a, b);
    BeforeMembers(items, a, b);
  }

  lemma BeforeMembers(s: seq<u16>, a: u16, b: u16)
    ensures Before(s, a, b) ==> a in s
    ensures a in s && b !in s && a != b ==> Before(s, a, b)
  {
    if a in s && b !in s { BeforeIfPresent(s, a, b); }
  }

  /** A check that completes leaves the old entries in their order, however it is computed; it writes at most BootOrder,
      and only if that changes it. The new first entry is the old order's first module entry, if it has one. */
  lemma CheckKeepsOrder(vars: EfiVars, items: seq<u16>, writeOk: bool)
    requires vars.order.Some? && OrderCheck(vars, items, writeOk).1 == Completed
    ensures var vars' := OrderCheck(vars, items, writeOk).0;
      && vars'.order.Some? && vars' == vars.(order := vars'.order)
      && (vars' == vars || (writeOk && Distinct(vars'.order.value)))
      && Arranged(vars.order.value, items, vars'.order.value)
      && forall i :: 0 <= i < |vars.order.value| && vars.order.value[i] in items
                     && (forall k :: 0 <= k < i ==> vars.order.value[k] !in items) ==>
           vars'.order.value != [] && vars'.order.value[0] == vars.order.value[i]
  {
    var order := vars.order.value;
    var checked := OrderCheck(vars, items, writeOk).0.order.value;
    CheckedIsEffective(order, items);
    NormalisedMeaning(order, items);
    NormalisedArranged(order, items);
    EffectiveArranged(order, items, checked);
    forall i | 0 <= i < |order| && order[i] in items && (forall k :: 0 <= k < i ==> order[k] !in items)
      ensures checked != [] && checked[0] == order[i]
    {
      FirstModule(order, items, checked, i);
    }
  }

  lemma NormalisedArranged(order: seq<u16>, items: seq<u16>)
    ensures Arranged(order, items, Normalised(order, items))
  {
    NormalisedMeaning(order, items);
    hide Normalised, Before;
    forall a, b | (a in order || a in items) && (b in order || b in items) && a != b
      ensures Before(Normalised(order, items), a, b) <==>
                if a in items && b in items then
                  if b in order then a in order && Before(order, a, b)
                  else a in order || Before(items, a, b)
                else if a in items then true
                else b !in items && Before(order, a, b)
    {
      NormalisedBefore(order, items, a, b);
    }
    forall a, s: seq<u16> ensures !Before(s, a, a) { NotBeforeItself(s, a); }
  }

  lemma NotBeforeItself(s: seq<u16>, a: u16)
    ensures !Before(s, a, a)
  {
  }

  /** What holds of the first occurrences of a list holds of the list. */
  lemma EffectiveArranged(order: seq<u16>, items: seq<u16>, checked: seq<u16>)
    requires Arranged(order, items, FirstOccurrences(checked))
    ensures Arranged(order, items, checked)
  {
    FirstOccurrencesMeaning(checked);
    forall a, b ensures Before(FirstOccurrences(checked), a, b) <==> Before(checked, a, b) {
      BeforeInFirst(checked, a, b);
    }
    hide Before, FirstOccurrences;
  }

  lemma FirstModule(order: seq<u16>, items: seq<u16>, checked: seq<u16>, i: nat)
    requires Arranged(order, items, checked) && i < |order| && order[i] in items
    requires forall k :: 0 <= k < i ==> order[k] !in items
    ensures checked != [] && checked[0] == order[i]
  {
    var a := order[i];
    assert a in order && a in checked;
    var b := checked[0];
    assert b in checked;
    if b != a {
      assert Before(checked, b, a) by { assert checked[0] == b && a !in checked[..0]; }
      NotBoth(checked, a, b);
      if b in items && b in order {
        assert Before(order, a, b) by { assert b !in order[..i]; }
      }
    }
  }

  lemma NotBoth(s: seq<u16>, a: u16, b: u16)
    ensures !(Before(s, a, b) && Before(s, b, a))
  {
    if Before(s, a, b) {
      var i :| 0 <= i < |s| && s[i] == a && b !in s[..i];
      assert forall m :: 0 <= m < i ==> s[..i][m] in s[..i];
      forall j | 0 <= j < |s| && s[j] == b ensures a in s[..j] {
        assert i < j && s[..j][i] == a;
      }
    }
  }
}
