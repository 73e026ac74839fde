/** The ids of the boot entry variables: the search for a free one and the bookkeeping of a new entry. */
module BootEntries {
  import opened Prelude

  /** What looking up a partition's boot entry gave. */
  datatype Lookup = Found(id: u16) | NotFound | LookupFailed(error: Error)

  datatype BootItem = BootItem(id: u16, description: string)

  ghost predicate Sorted(items: seq<BootItem>) {
    forall i, j :: 0 <= i < j < |items| ==> items[i].id <= items[j].id
  }

  predicate Used(items: seq<BootItem>, id: u16) {
    exists i :: 0 <= i < |items| && items[i].id == id
  }

  function IdsOf(items: seq<BootItem>): set<u16> {
    set i | 0 <= i < |items| :: items[i].id
  }

  /** uint16 addition of one. */
  function Increment(num: u16): u16 {
    (num + 1) % 0x1_0000
  }

  ghost predicate LeastFree(items: seq<BootItem>, num: u16)
    requires items != []
  {
    items[0].id <= num && !Used(items, num) && forall id: u16 :: items[0].id <= id < num ==> Used(items, id)
  }

  // ---------------------------------------------------------------- counting ids

  function Below(n: nat): set<u16>
    requires n <= 0x1_0000
  {
    if n == 0 then {} else Below(n - 1) + {n - 1}
  }

  lemma {:induction false} BelowMeaning(n: nat)
    requires n <= 0x1_0000
    ensures |Below(n)| == n && forall id: u16 :: id in Below(n) <==> id < n
  {
    if n > 0 {
      BelowMeaning(n - 1);
      assert n - 1 !in Below(n - 1);
    }
  }

  lemma SubsetSize(a: set<u16>, b: set<u16>)
    requires a <= b
    ensures |a| <= |b| && (|a| == |b| ==> a == b)
  {
    assert b == a + (b - a);
    assert |b - a| == 0 ==> b - a == {};
  }

  /** All 65536 ids are used exactly when there are so many distinct ones. */
  lemma AllUsed(items: seq<BootItem>)
    ensures (forall id: u16 :: Used(items, id)) <==> |IdsOf(items)| == 0x1_0000
    ensures |IdsOf(items)| <= 0x1_0000
  {
    BelowMeaning(0x1_0000);
    SubsetSize(IdsOf(items), Below(0x1_0000));
    assert forall id: u16 :: Used(items, id) <==> id in IdsOf(items);
    if forall id: u16 :: Used(items, id) {
      assert IdsOf(items) == Below(0x1_0000);
    }
  }

  /** A place for the item among the sorted ones; equal ids may come in any order. */
  method Place(sorted: seq<BootItem>, item: BootItem) returns (i: nat)
    requires Sorted(sorted)
    ensures i <= |sorted|
    ensures i > 0 ==> sorted[i - 1].id <= item.id
    ensures i < |sorted| ==> item.id <= sorted[i].id
  {
    i := |sorted|;
    while i > 0 && sorted[i - 1].id > item.id
      invariant i <= |sorted|
      invariant i < |sorted| ==> item.id <= sorted[i].id
    {
      i := i - 1;
    }
  }

  /** The list in the order of ids; sort.Slice promises no more. */
  method SortById(items: seq<BootItem>) returns (sorted: seq<BootItem>)
    ensures multiset(sorted) == multiset(items) && Sorted(sorted)
  {
    sorted := [];
    assert Sorted(sorted);
    hide Sorted;
    for k := 0 to |items|
      invariant multiset(sorted) == multiset(items[..k]) && Sorted(sorted)
    {
      var item := items[k];
      var i := Place(sorted, item);
      assert items[..k + 1] == items[..k] + [item];
      InsertSorted(sorted, i, item);
      InsertCount(sorted, i, item);
      sorted := sorted[..i] + [item] + sorted[i..];
    }
    assert items[..|items|] == items;
  }

  lemma SortedConcat(s: seq<BootItem>, t: seq<BootItem>)
    requires Sorted(s) && Sorted(t)
    requires s != [] && t != [] ==> s[|s| - 1].id <= t[0].id
    ensures Sorted(s + t)
  {
    forall i, j | 0 <= i < j < |s + t| ensures (s + t)[i].id <= (s + t)[j].id {
      if i < |s| <= j {
        assert i < |s| - 1 ==> s[i].id <= s[|s| - 1].id;
        assert j > |s| ==> t[0].id <= t[j - |s|].id;
      }
    }
  }

  lemma InsertSorted(s: seq<BootItem>, i: nat, item: BootItem)
    requires Sorted(s) && i <= |s|
    requires (i > 0 ==> s[i - 1].id <= item.id) && (i < |s| ==> item.id <= s[i].id)
    ensures Sorted(s[..i] + [item] + s[i..])
  {
    SortedConcat(s[..i], [item]);
    SortedConcat(s[..i] + [item], s[i..]);
  }

  /** The entries the firmware holds and the boot order it follows. */
  class Instance {
    var bootItems: seq<BootItem>
    var bootOrder: Option<seq<u16>>

    /** The least id from the first entry's on that is unused, or 0 when the entries reach the top without a gap. So
        the id is unused unless all 65536 are used. */
    method FindFreeNum() returns (num: u16)
      requires Sorted(bootItems)
      ensures !Used(bootItems, num) <==> |IdsOf(bootItems)| < 0x1_0000
      ensures bootItems == [] ==> num == 0
      ensures bootItems != [] ==>
                LeastFree(bootItems, num) ||
                (num == 0 && forall id: u16 :: bootItems[0].id <= id ==> Used(bootItems, id))
    {
      AllUsed(bootItems);
      if |bootItems| == 0 { return 0; }
      num := bootItems[0].id;
      ghost var first := bootItems[0].id;
      ghost var wrapped := false;
      for i := 0 to |bootItems|
        invariant i == 0 ==> num == first && !wrapped
        invariant !wrapped ==> first <= num && forall id: u16 :: first <= id < num ==> Used(bootItems, id)
        invariant !wrapped && i > 0 ==> bootItems[i - 1].id < num
        invariant wrapped ==> i > 0 && num == 0 && bootItems[i - 1].id == 0xFFFF && forall id: u16 :: first <= id ==>
                Used(bootItems, id)
      {
        var v := bootItems[i];
        if num == v.id {
          wrapped := wrapped || num == 0xFFFF;
          num := Increment(num);
        } else if num < v.id {
          break;
        }
      }
    }

    /** Adds a boot entry under a free id. makeOk is whether the entry's data could be built and its variable written,
        writeOk whether BootOrder could. */
    method CreateBootEntry(entryName: string, makeOk: bool, writeOk: bool) returns (r: Result<u16>)
      requires Sorted(bootItems)
      modifies this
      ensures Sorted(bootItems)
      ensures r.Ok? <==> makeOk && writeOk && old(bootOrder).Some?
      ensures r.Err? ==> bootItems == old(bootItems) && bootOrder == old(bootOrder)
      ensures r.Ok? ==>
                && bootOrder == Some(old(bootOrder).value + [r.value])
                && multiset(bootItems) == multiset(old(bootItems)) + multiset{BootItem(r.value, entryName)}
                && IdsOf(bootItems) == IdsOf(old(bootItems)) + {r.value}
                && (|IdsOf(old(bootItems))| < 0x1_0000 ==> r.value !in IdsOf(old(bootItems)))
    {
      var num := FindFreeNum();
      if !makeOk { return Err("can't make boot variable"); }
      if bootOrder.None? { return Err("can't read BootOrder"); }
      var ids := bootOrder.value + [num];
      if !writeOk { return Err("can't write BootOrder"); }
      bootOrder := Some(ids);
      var items := bootItems + [BootItem(num, entryName)];
      bootItems := SortById(items);
      SameIds(items, bootItems);
      assert !Used(old(bootItems), num) <==> num !in IdsOf(old(bootItems));
      AddedId(old(bootItems), BootItem(num, entryName));
      return Ok(num);
    }

    /** Finds or creates the boot entry of every partition; found tells what the lookup by partition gave. It succeeds
        exactly if every lookup and creation does; the first that does not ends it, with what was created before. */
    method CheckPartitions(found: seq<Lookup>, makeOk: seq<bool>, writeOk: seq<bool>) returns (r: Result<seq<u16>>)
      requires Sorted(bootItems) && |makeOk| == |found| == |writeOk|
      modifies this
      ensures Sorted(bootItems) && IdsOf(old(bootItems)) <= IdsOf(bootItems)
      ensures r.Ok? <==> AllWork(found, makeOk, writeOk, old(bootOrder).Some?, |found|)
      ensures r.Ok? ==> |r.value| == |found| && Processed(found, r.value, old(Now()), Now())
      ensures r.Err? ==> exists ids :: StopsAfter(found, makeOk, writeOk, ids, old(Now()), Now())
      ensures r.Ok? && |IdsOf(old(bootItems))| + |found| <= 0x1_0000 ==>
              NewIdsFresh(IdsOf(old(bootItems)), found, r.value)
    {
      hide Sorted, Processed, NewIdsFresh, CreatedAmong, IdsOf;
      var ids: seq<u16> := [];
      ghost var start := Now();
      NothingProcessed(found, start);
      NothingFresh(IdsOf(bootItems), found);
      for k := 0 to |found|
        invariant Sorted(bootItems) && |ids| == k && bootOrder.Some? == start.bootOrder.Some?
        invariant IdsOf(start.bootItems) <= IdsOf(bootItems) && |IdsOf(bootItems)| <= |IdsOf(start.bootItems)| + k
        invariant AllWork(found, makeOk, writeOk, start.bootOrder.Some?, k)
        invariant Processed(found[..k], ids, start, Now())
        invariant CreatedAmong(IdsOf(bootItems), found[..k], ids)
        invariant |IdsOf(start.bootItems)| + |found| <= 0x1_0000 ==>
                    NewIdsFresh(IdsOf(start.bootItems), found[..k], ids)
      {
        var id: u16;
        ghost var before := Now();
        match found[k] {
        case Found(foundId) => id := foundId;
        case LookupFailed(e) =>
          assert StopsAfter(found, makeOk, writeOk, ids, start, Now());
          return Err(e);
        case NotFound =>
          var created := CreateBootEntry(EntryName(k), makeOk[k], writeOk[k]);
          if created.Err? {
            assert StopsAfter(found, makeOk, writeOk, ids, start, Now());
            return Err(created.error);
          }
          id := created.value;
        }
        FreshSnoc(IdsOf(start.bootItems), IdsOf(before.bootItems), found, k, ids, id);
        ProcessedSnoc(found, k, ids, id, start, before, Now());
        ids := ids + [id];
      }
      assert found[..|found|] == found;
      return Ok(ids);
    }

    ghost function Now(): Held
      reads this
    {
      Held(bootItems, bootOrder)
    }
  }

  /** The entries the firmware holds and the order it follows, as values. */
  datatype Held = Held(bootItems: seq<BootItem>, bootOrder: Option<seq<u16>>)

  /** The name of the entry created for a partition: Boot and its number. */
  function EntryName(k: nat): string {
    "Boot" + Decimal(k)
  }

  function Decimal(n: nat): string {
    (if n < 10 then "" else Decimal(n / 10)) + [['0', '1', '2', '3', '4', '5', '6', '7', '8', '9'][n % 10]]
  }

  /** The entry of the partition is found, or it can be created. */
  predicate Works(found: Lookup, makeOk: bool, writeOk: bool, readable: bool) {
    found.Found? || (found.NotFound? && makeOk && writeOk && readable)
  }

  predicate AllWork(found: seq<Lookup>, makeOk: seq<bool>, writeOk: seq<bool>, readable: bool, n: nat)
    requires n <= |found| == |makeOk| == |writeOk|
  {
    forall i :: 0 <= i < n ==> Works(found[i], makeOk[i], writeOk[i], readable)
  }

  /** The ids of the entries that had to be created, in the order of the partitions. */
  function CreatedIds(found: seq<Lookup>, ids: seq<u16>): seq<u16>
    requires |ids| == |found|
  {
    if found == [] then []
    else
      var n := |found| - 1;
      CreatedIds(found[..n], ids[..n]) + if found[n].NotFound? then [ids[n]] else []
  }

  function CreatedItems(found: seq<Lookup>, ids: seq<u16>): multiset<BootItem>
    requires |ids| == |found|
  {
    if found == [] then multiset{}
    else
      var n := |found| - 1;
      CreatedItems(found[..n], ids[..n]) + if found[n].NotFound? then multiset{BootItem(ids[n], EntryName(n))}
                                           else multiset{}
  }

  /** Each partition has the id found or one created for it; exactly the created entries have been added, with their
      names, and their ids stand at the end of BootOrder in turn. */
  ghost predicate Processed(found: seq<Lookup>, ids: seq<u16>, before: Held, after: Held) {
    && |ids| == |found| && (forall i :: 0 <= i < |found| && found[i].Found? ==> ids[i] == found[i].id)
    && multiset(after.bootItems) == multiset(before.bootItems) + CreatedItems(found, ids)
    && (before.bootOrder.None? ==> after.bootOrder.None? && CreatedIds(found, ids) == [])
    && (before.bootOrder.Some? ==> after.bootOrder == Some(before.bootOrder.value + CreatedIds(found, ids)))
  }

  /** The first partitions have been processed, and the next one does not work. */
  ghost predicate StopsAfter(found: seq<Lookup>, makeOk: seq<bool>, writeOk: seq<bool>, ids: seq<u16>, before: Held,
                             after: Held)
    requires |found| == |makeOk| == |writeOk|
  {
    var n := |ids|;
    && n < |found| && AllWork(found, makeOk, writeOk, before.bootOrder.Some?, n)
    && !Works(found[n], makeOk[n], writeOk[n], before.bootOrder.Some?)
    && Processed(found[..n], ids, before, after)
  }

  lemma ProcessedSnoc(found: seq<Lookup>, k: nat, ids: seq<u16>, id: u16, start: Held, before: Held, after: Held)
    requires k < |found| && |ids| == k && Processed(found[..k], ids, start, before)
    requires match found[k]
             case Found(foundId) => id == foundId && after == before
             case LookupFailed(_) => false
             case NotFound =>
               && before.bootOrder.Some? && after.bootOrder == Some(before.bootOrder.value + [id])
               && multiset(after.bootItems) == multiset(before.bootItems) + multiset{BootItem(id, EntryName(k))}
    ensures Processed(found[..k + 1], ids + [id], start, after)
  {
    var found', ids' := found[..k + 1], ids + [id];
    assert found'[..k] == found[..k] && ids'[..k] == ids;
    assert CreatedIds(found', ids') == CreatedIds(found[..k], ids) + if found[k].NotFound? then [id] else [];
    if found[k].NotFound? {
      assert after.bootOrder.value == start.bootOrder.value + (CreatedIds(found[..k], ids) + [id]);
    } else {
      assert CreatedIds(found', ids') == CreatedIds(found[..k], ids);
    }
  }

  lemma NothingProcessed(found: seq<Lookup>, start: Held)
    ensures Processed(found[..0], [], start, start)
  {
    if start.bootOrder.Some? {
      assert start.bootOrder.value == start.bootOrder.value + CreatedIds(found[..0], []);
    }
  }

  /** The entries that had to be created got ids that were not in use, each a different one. */
  ghost predicate NewIdsFresh(used: set<u16>, found: seq<Lookup>, ids: seq<u16>)
    requires |ids| == |found|
  {
    && (forall i :: 0 <= i < |found| && found[i].NotFound? ==> ids[i] !in used)
    && (forall i, j :: 0 <= i < j < |found| && found[i].NotFound? && found[j].NotFound? ==> ids[i] != ids[j])
  }

  ghost predicate CreatedAmong(used: set<u16>, found: seq<Lookup>, ids: seq<u16>)
    requires |ids| == |found|
  {
    forall i :: 0 <= i < |found| && found[i].NotFound? ==> ids[i] in used
  }

  lemma FreshSnoc(used: set<u16>, now: set<u16>, found: seq<Lookup>, k: nat, ids: seq<u16>, id: u16)
    requires used <= now && k < |found| && |ids| == k && CreatedAmong(now, found[..k], ids)
    ensures CreatedAmong(now + {id}, found[..k + 1], ids + [id])
    ensures NewIdsFresh(used, found[..k], ids) && (found[k].NotFound? ==> id !in now) ==>
            NewIdsFresh(used, found[..k + 1], ids + [id])
    ensures found[k].Found? ==> CreatedAmong(now, found[..k + 1], ids + [id])
  {
    assert found[..k + 1] == found[..k] + [found[k]];
  }

  lemma NothingFresh(used: set<u16>, found: seq<Lookup>)
    ensures CreatedAmong(used, found[..0], []) && NewIdsFresh(used, found[..0], [])
  {
  }

  lemma SameIds(s: seq<BootItem>, t: seq<BootItem>)
    requires multiset(s) == multiset(t)
    ensures IdsOf(s) == IdsOf(t)
  {
    SubIds(s, t);
    SubIds(t, s);
  }

  lemma SubIds(s: seq<BootItem>, t: seq<BootItem>)
    requires multiset(s) == multiset(t)
    ensures IdsOf(s) <= IdsOf(t)
  {
    forall i | 0 <= i < |s| ensures s[i].id in IdsOf(t) {
      assert s[i] in multiset(t);
      var k :| 0 <= k < |t| && t[k] == s[i];
    }
  }

  lemma AddedId(s: seq<BootItem>, item: BootItem)
    ensures IdsOf(s + [item]) == IdsOf(s) + {item.id}
  {
    assert forall i :: 0 <= i < |s| ==> (s + [item])[i] == s[i];
    assert (s + [item])[|s|] == item;
  }
}
