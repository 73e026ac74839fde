/** Lists of boot entry ids as the firmware reads them: only the first occurrence of an id counts. */
module BootOrder {
  import opened Prelude

  /** The order in which a list of ids is effectively tried: first occurrences only. */
  function FirstOccurrences(s: seq<u16>): seq<u16> {
    if s == [] then []
    else AppendNew(FirstOccurrences(s[..|s| - 1]), s[|s| - 1])
  }

  function AppendNew(s: seq<u16>, x: u16): seq<u16> {
    if x in s then s else s + [x]
  }

  /** The entries of s that are (inside) or are not (!inside) among items, in their order in s. */
  function Select(s: seq<u16>, items: seq<u16>, inside: bool): seq<u16> {
    if s == [] then []
    else
      var rest := Select(s[..|s| - 1], items, inside);
      if (s[|s| - 1] in items) == inside then rest + [s[|s| - 1]] else rest
  }

  ghost predicate Distinct(s: seq<u16>) {
    forall i, j :: 0 <= i < j < |s| ==> s[i] != s[j]
  }

  /** What the boot order has to become: the module entries in their old relative order, then the module
      entries it lacks in the order of items, then the other entries in their old relative order. */
  function Normalised(order: seq<u16>, items: seq<u16>): seq<u16> {
    var effective := FirstOccurrences(order);
    Select(effective, items, true) + Select(FirstOccurrences(items), effective, false) + Select(effective, items, false)
  }

  lemma {:induction false} FirstOccurrencesMeaning(s: seq<u16>)
    ensures Distinct(FirstOccurrences(s))
    ensures forall x :: x in FirstOccurrences(s) <==> x in s
    ensures |FirstOccurrences(s)| <= |s|
    ensures |FirstOccurrences(s)| == |s| <==> Distinct(s)
    ensures Distinct(s) ==> FirstOccurrences(s) == s
  {
    if s != [] {
      var front, last := s[..|s| - 1], s[|s| - 1];
      FirstOccurrencesMeaning(front);
      assert s == front + [last];
      if last in front {
        var i :| 0 <= i < |front| && front[i] == last;
        assert s[i] == s[|s| - 1];
      }
    }
  }

  lemma {:induction false} SelectMeaning(s: seq<u16>, items: seq<u16>, inside: bool)
    ensures forall x :: x in Select(s, items, inside) <==> x in s && (x in items) == inside
    ensures Distinct(s) ==> Distinct(Select(s, items, inside))
    ensures |Select(s, items, inside)| <= |s|
  {
    if s != [] {
      SelectMeaning(s[..|s| - 1], items, inside);
      assert s == s[..|s| - 1] + [s[|s| - 1]];
    }
  }

  lemma Snoc(s: seq<u16>, x: u16, items: seq<u16>, inside: bool)
    ensures FirstOccurrences(s + [x]) == AppendNew(FirstOccurrences(s), x)
    ensures Select(s + [x], items, inside)
         == if (x in items) == inside then Select(s, items, inside) + [x] else Select(s, items, inside)
  {
    assert (s + [x])[..|s + [x]| - 1] == s;
  }

  /** Taking first occurrences and selecting commute, so the code may do both in one pass. */
  lemma {:induction false} SelectCommutes(s: seq<u16>, items: seq<u16>, inside: bool)
    ensures FirstOccurrences(Select(s, items, inside)) == Select(FirstOccurrences(s), items, inside)
  {
    if s != [] {
      var front, last := s[..|s| - 1], s[|s| - 1];
      SelectCommutes(front, items, inside);
      SelectMeaning(FirstOccurrences(front), items, inside);
      Snoc(Select(front, items, inside), last, items, inside);
      Snoc(FirstOccurrences(front), last, items, inside);
    }
  }

  lemma {:induction false} SelectAll(s: seq<u16>, items: seq<u16>, inside: bool)
    requires forall x :: x in s ==> (x in items) == inside
    ensures Select(s, items, inside) == s && Select(s, items, !inside) == []
  {
    if s != [] {
      SelectAll(s[..|s| - 1], items, inside);
    }
  }
}
