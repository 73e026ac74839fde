/** The priority scheduler: operations of one priority run concurrently, groups run one after the other.
    Each operation's body is taken to run atomically; within a group the bodies may run in any order, also while
    the scheduler is still starting others. */
module PriorityOperations {
  import opened Prelude

  datatype Operation = Operation(priority: nat, id: string)

  /** The effect of an operation on the state the bodies share, and its error. */
  type Body<!W> = (string, W) -> (W, Option<Error>)

  datatype Event = Started(op: Operation) | Finished(op: Operation)

  // ---------------------------------------------------------------- executions

  function RunAll<W>(run: Body<W>, order: seq<Operation>, w: W): W {
    if order == [] then w
    else run(order[|order| - 1].id, RunAll(run, order[..|order| - 1], w)).0
  }

  function ErrorOf<W>(run: Body<W>, order: seq<Operation>, w: W, i: nat): Option<Error>
    requires i < |order|
  {
    run(order[i].id, RunAll(run, order[..i], w)).1
  }

  /** The operation that failed first, with its error, if any did. */
  function FirstFailure<W>(run: Body<W>, order: seq<Operation>, w: W): Option<(Operation, Error)> {
    if order == [] then None
    else
      var front, last := order[..|order| - 1], order[|order| - 1];
      match FirstFailure(run, front, w)
      case Some(f) => Some(f)
      case None =>
        match run(last.id, RunAll(run, front, w)).1
        case None => None
        case Some(e) => Some((last, e))
  }

  lemma Snoc<W>(run: Body<W>, order: seq<Operation>, op: Operation, w: W)
    ensures RunAll(run, order + [op], w) == run(op.id, RunAll(run, order, w)).0
    ensures FirstFailure(run, order + [op], w)
         == if FirstFailure(run, order, w).Some? then FirstFailure(run, order, w)
            else match run(op.id, RunAll(run, order, w)).1 case None => None case Some(e) => Some((op, e))
  {
    assert (order + [op])[..|order + [op]| - 1] == order;
  }

  lemma {:induction false} NoFailureMeaning<W>(run: Body<W>, order: seq<Operation>, w: W, i: nat)
    requires FirstFailure(run, order, w).None? && i < |order|
    ensures ErrorOf(run, order, w, i).None?
  {
    var front := order[..|order| - 1];
    if i < |front| {
      NoFailureMeaning(run, front, w, i);
      assert order[..i] == front[..i];
    }
  }

  /** A recorded failure is that of an operation before which all succeeded. */
  lemma {:induction false} FirstFailureIndex<W>(run: Body<W>, order: seq<Operation>, w: W) returns (i: nat)
    requires FirstFailure(run, order, w).Some?
    ensures i < |order| && FirstFailure(run, order[..i], w).None?
    ensures order[i] == FirstFailure(run, order, w).value.0
    ensures ErrorOf(run, order, w, i) == Some(FirstFailure(run, order, w).value.1)
  {
    var front := order[..|order| - 1];
    if FirstFailure(run, front, w).Some? {
      i := FirstFailureIndex(run, front, w);
      assert order[..i] == front[..i];
    } else {
      i := |front|;
    }
  }

  ghost predicate Descending(order: seq<Operation>) {
    forall i, j :: 0 <= i < j < |order| ==> order[i].priority >= order[j].priority
  }

  /** Nothing of a higher priority finishes once something of a lower one has started. */
  ghost predicate GroupsInTurn(log: seq<Event>) {
    forall i, j :: 0 <= i < j < |log| && log[i].Started? && log[j].Finished? ==>
        log[j].op.priority <= log[i].op.priority
  }

  function FinishOrder(log: seq<Event>): seq<Operation> {
    if log == [] then []
    else
      var rest := FinishOrder(log[..|log| - 1]);
      if log[|log| - 1].Finished? then rest + [log[|log| - 1].op] else rest
  }

  /** What an execution of the operations in the given order means. */
  ghost predicate Execution<W(!new)>(operations: seq<Operation>, stopOnError: bool, run: Body<W>, w: W,
                                     order: seq<Operation>, w': W, err: Option<Error>)
  {
    var failure := FirstFailure(run, order, w);
    && Descending(order)
    && w' == RunAll(run, order, w)
    && (err.Some? <==> failure.Some?)
    && (failure.Some? ==> err.value == failure.value.1)
    && (if !stopOnError || failure.None?
        then multiset(order) == multiset(operations)
        else Exactly(operations, order, failure.value.0.priority))
  }

  /** Those of the operations with priority p or above were run, each once, and no others. */
  ghost predicate Exactly(operations: seq<Operation>, order: seq<Operation>, p: nat) {
    forall op: Operation :: multiset(order)[op] == if op.priority >= p then multiset(operations)[op] else 0
  }

  // ---------------------------------------------------------------- the scheduler

  lemma DescendingConcat(s: seq<Operation>, t: seq<Operation>)
    requires Descending(s) && Descending(t)
    requires s != [] && t != [] ==> s[|s| - 1].priority >= t[0].priority
    ensures Descending(s + t)
  {
    forall i, j | 0 <= i < j < |s + t| ensures (s + t)[i].priority >= (s + t)[j].priority {
      if i < |s| <= j {
        assert i < |s| - 1 ==> s[i].priority >= s[|s| - 1].priority;
        assert j > |s| ==> t[0].priority >= t[j - |s|].priority;
      }
    }
  }

  lemma InsertDescending(s: seq<Operation>, i: nat, op: Operation)
    requires Descending(s) && i <= |s|
    requires i > 0 ==> s[i - 1].priority >= op.priority
    requires i < |s| ==> op.priority >= s[i].priority
    ensures Descending(s[..i] + [op] + s[i..])
  {
    DescendingConcat(s[..i], [op]);
    DescendingConcat(s[..i] + [op], s[i..]);
  }

  lemma FinishCount(order: seq<Operation>, running: seq<Operation>, i: nat)
    requires i < |running|
    ensures multiset(order + [running[i]]) + multiset(running[..i] + running[i + 1..]) ==
            multiset(order) + multiset(running)
    ensures forall op :: op in running[..i] + running[i + 1..] ==> op in running
  {
    assert running == running[..i] + [running[i]] + running[i + 1..];
  }

  /** A place for op among the sorted operations; equal priorities may come in any order. */
  method Place(sorted: seq<Operation>, op: Operation) returns (i: nat)
    requires Descending(sorted)
    ensures i <= |sorted|
    ensures i > 0 ==> sorted[i - 1].priority >= op.priority
    ensures i < |sorted| ==> op.priority >= sorted[i].priority
  {
    i := 0;
    while i < |sorted| && sorted[i].priority >= op.priority
      invariant i <= |sorted|
      invariant i > 0 ==> sorted[i - 1].priority >= op.priority
    {
      var beforeEqual: bool := *;
      if sorted[i].priority == op.priority && beforeEqual { break; }
      i := i + 1;
    }
  }

  /** sort.Slice: some sequence with the same elements in descending priority; it is not stable. */
  method SortByPriority(operations: seq<Operation>) returns (sorted: seq<Operation>)
    ensures multiset(sorted) == multiset(operations) && Descending(sorted)
  {
    sorted := [];
    assert Descending(sorted);
    hide Descending;
    for k := 0 to |operations|
      invariant multiset(sorted) == multiset(operations[..k]) && Descending(sorted)
    {
      var op := operations[k];
      var i := Place(sorted, op);
      assert operations[..k + 1] == operations[..k] + [op];
      InsertDescending(sorted, i, op);
      InsertCount(sorted, i, op);
      sorted := sorted[..i] + [op] + sorted[i..];
    }
    assert operations[..|operations|] == operations;
  }

  /** The scheduler between two of its own steps: operations that were started and have not finished, what
      happened so far, the shared state, and the errors kept from earlier groups and from the present one. */
  datatype Progress<W> = Progress(running: seq<Operation>, log: seq<Event>, w: W, err: Option<Error>,
      groupErr: Option<Error>)

  ghost predicate Sound<W(!new)>(p: Progress<W>, run: Body<W>, w: W, priority: nat, started: multiset<Operation>) {
    Ordered(p.running, p.log, priority, started) && Tracked(p, run, w, priority)
  }

  /** What started is running or finished; the running ones are of the present priority and nothing lower started. */
  ghost predicate Ordered(running: seq<Operation>, log: seq<Event>, priority: nat, started: multiset<Operation>) {
    && multiset(FinishOrder(log)) + multiset(running) == started
    && (forall op :: op in running ==> op.priority == priority)
    && GroupsInTurn(log) && Descending(FinishOrder(log))
    && (forall e :: e in log ==> e.op.priority >= priority)
    && (forall op :: op in FinishOrder(log) ==> op.priority >= priority)
  }

  /** The state is that of the bodies executed so far, and the errors kept tell the first failure among them. */
  ghost predicate Tracked<W(!new)>(p: Progress<W>, run: Body<W>, w: W, priority: nat) {
    var failure := FirstFailure(run, FinishOrder(p.log), w);
    && p.w == RunAll(run, FinishOrder(p.log), w)
    && (if p.err.Some? then failure.Some? && failure.value.1 == p.err.value
        else if p.groupErr.Some? then failure.Some? && failure.value.0.priority == priority &&
            failure.value.1 == p.groupErr.value
        else failure.None?)
  }

  /** The body of the i-th running operation is executed. */
  function Finish<W>(p: Progress<W>, run: Body<W>, i: nat): Progress<W>
    requires i < |p.running|
  {
    var op := p.running[i];
    var (w, e) := run(op.id, p.w);
    Progress(p.running[..i] + p.running[i + 1..], p.log + [Finished(op)], w, p.err,
        if p.groupErr.None? then e else p.groupErr)
  }

  lemma FinishIsSound<W(!new)>(p: Progress<W>, run: Body<W>, w: W, priority: nat, started: multiset<Operation>, i: nat)
    requires Sound(p, run, w, priority, started) && i < |p.running|
    ensures Sound(Finish(p, run, i), run, w, priority, started)
  {
    FinishOrdered(p.running, p.log, priority, started, i);
    assert p.running[i] in p.running;
    SnocLog(p.log, Finished(p.running[i]));
    Snoc(run, FinishOrder(p.log), p.running[i], w);
  }

  lemma FinishOrdered(running: seq<Operation>, log: seq<Event>, priority: nat, started: multiset<Operation>, i: nat)
    requires Ordered(running, log, priority, started) && i < |running|
    ensures Ordered(running[..i] + running[i + 1..], log + [Finished(running[i])], priority, started)
  {
    var op, order := running[i], FinishOrder(log);
    assert op in running && op.priority == priority;
    SnocLog(log, Finished(op));
    FinishCount(order, running, i);
    TurnsSnoc(log, op);
    DescendingSnoc(order, op);
    assert forall e :: e in log + [Finished(op)] ==> e in log || e.op == op;
    assert forall o :: o in order + [op] ==> o in order || o == op;
  }

  lemma TurnsSnoc(log: seq<Event>, op: Operation)
    requires GroupsInTurn(log) && forall e :: e in log ==> e.op.priority >= op.priority
    ensures GroupsInTurn(log + [Finished(op)])
  {
    assert forall k :: 0 <= k < |log| ==> log[k] in log;
  }

  lemma DescendingSnoc(order: seq<Operation>, op: Operation)
    requires Descending(order) && forall o :: o in order ==> o.priority >= op.priority
    ensures Descending(order + [op])
  {
    assert forall i :: 0 <= i < |order| ==> order[i] in order;
  }

  lemma SnocLog(log: seq<Event>, e: Event)
    ensures FinishOrder(log + [e]) == if e.Finished? then FinishOrder(log) + [e.op] else FinishOrder(log)
  {
    assert (log + [e])[..|log + [e]| - 1] == log;
  }

  method Start<W(!new)>(p: Progress<W>, op: Operation, run: Body<W>, ghost w: W, ghost started: multiset<Operation>)
    returns (p': Progress<W>)
    requires Sound(p, run, w, op.priority, started)
    ensures Sound(p', run, w, op.priority, started + multiset{op})
    ensures p'.err == p.err
  {
    p' := p.(running := p.running + [op], log := p.log + [Started(op)]);
    SnocLog(p.log, Started(op));
    while p'.running != []
      invariant Sound(p', run, w, op.priority, started + multiset{op}) && p'.err == p.err
      decreases |p'.running|
    {
      var another: bool := *;
      if !another { break; }
      var i: nat :| i < |p'.running|;
      FinishIsSound(p', run, w, op.priority, started + multiset{op}, i);
      p' := Finish(p', run, i);
    }
  }

  method Wait<W(!new)>(p: Progress<W>, run: Body<W>, ghost w: W, ghost priority: nat,
                       ghost started: multiset<Operation>) returns (p': Progress<W>)
    requires Sound(p, run, w, priority, started)
    ensures Sound(p', run, w, priority, started) && p'.running == [] && p'.err == p.err
  {
    p' := p;
    while p'.running != []
      invariant Sound(p', run, w, priority, started) && p'.err == p.err
      decreases |p'.running|
    {
      var i: nat :| i < |p'.running|;
      FinishIsSound(p', run, w, priority, started, i);
      p' := Finish(p', run, i);
    }
  }

  /** A prefix of the sorted operations that ends with a complete group holds exactly those of its priorities. */
  lemma PrefixExactly(items: seq<Operation>, k: nat, p: nat)
    requires Descending(items) && 0 < k < |items| && items[k - 1].priority == p > items[k].priority
    ensures Exactly(items, items[..k], p)
  {
    assert items == items[..k] + items[k..];
    forall op | op in items[..k] ensures op.priority >= p {
    }
    forall op | op in items[k..] ensures op.priority < p {
    }
    forall op: Operation ensures multiset(items[..k])[op] == if op.priority >= p then multiset(items)[op] else 0 {
      assert op in multiset(items[..k]) <==> op in items[..k];
      assert op in multiset(items[k..]) <==> op in items[k..];
    }
  }

  /** Between groups an error of the finished group is kept unless an earlier one is. */
  function NextGroup<W>(p: Progress<W>): Progress<W> {
    if p.groupErr.None? then p
    else p.(err := if p.err.None? then p.groupErr else p.err, groupErr := None)
  }

  lemma NextGroupIsSound<W(!new)>(p: Progress<W>, run: Body<W>, w: W, priority: nat, lower: nat,
                                  started: multiset<Operation>)
    requires Sound(p, run, w, priority, started) && p.running == [] && lower <= priority
    ensures Sound(NextGroup(p), run, w, lower, started)
  {
  }

  /** Starts the next operation; before one of a lower priority, waits for the group and looks at its errors. */
  method StartNext<W(!new)>(p: Progress<W>, op: Operation, priority: nat, stopOnError: bool, run: Body<W>, ghost w: W,
                            ghost started: multiset<Operation>)
    returns (p': Progress<W>, stopped: bool)
    requires Sound(p, run, w, priority, started) && op.priority <= priority && (stopOnError ==> p.err.None?)
    ensures stopped ==> stopOnError && op.priority < priority
    ensures stopped ==> Sound(p', run, w, priority, started) && p'.running == [] && p'.err.None? && p'.groupErr.Some?
    ensures !stopped ==> Sound(p', run, w, op.priority, started + multiset{op}) && (stopOnError ==> p'.err.None?)
  {
    p' := p;
    if op.priority != priority {
      p' := Wait(p', run, w, priority, started);
      if p'.groupErr.Some? && stopOnError { return p', true; }
      NextGroupIsSound(p', run, w, priority, op.priority, started);
      p' := NextGroup(p');
    }
    p' := Start(p', op, run, w, started);
    return p', false;
  }

  lemma StoppedEarly<W(!new)>(operations: seq<Operation>, items: seq<Operation>, k: nat, p: Progress<W>, run: Body<W>,
                              w: W, priority: nat)
    requires multiset(items) == multiset(operations) && Descending(items)
    requires 0 < k < |items| && items[k - 1].priority == priority > items[k].priority
    requires Sound(p, run, w, priority, multiset(items[..k])) && p.running == [] && p.err.None? && p.groupErr.Some?
    ensures Execution(operations, true, run, w, FinishOrder(p.log), p.w, p.groupErr)
  {
    PrefixExactly(items, k, priority);
    assert multiset(FinishOrder(p.log)) == multiset(items[..k]);
  }

  lemma Completed<W(!new)>(operations: seq<Operation>, stopOnError: bool, p: Progress<W>, run: Body<W>, w: W,
                           priority: nat)
    requires Sound(p, run, w, priority, multiset(operations)) && p.running == [] && (stopOnError ==> p.err.None?)
    ensures Execution(operations, stopOnError, run, w, FinishOrder(p.log), p.w,
            if p.err.None? then p.groupErr else p.err)
  {
    var order := FinishOrder(p.log);
    assert multiset(order) == multiset(operations);
    if stopOnError && p.groupErr.Some? {
      forall op: Operation
        ensures multiset(order)[op] == if op.priority >= priority then multiset(operations)[op] else 0
      {
        assert op in order <==> op in multiset(order);
      }
    }
  }

  /** Runs the operations, highest priority first. The log tells when each was started and when its body ran. */
  method DoPriorityOperations<W(!new)>(operations: seq<Operation>, stopOnError: bool, run: Body<W>, w: W)
    returns (w': W, err: Option<Error>, log: seq<Event>)
    ensures Execution(operations, stopOnError, run, w, FinishOrder(log), w', err)
    ensures GroupsInTurn(log)
  {
    if |operations| == 0 { return w, None, []; }
    var items := SortByPriority(operations);
    var priority := items[0].priority;
    var p: Progress<W> := Progress([], [], w, None, None);
    for k := 0 to |items|
      invariant k < |items| ==> items[k].priority <= priority
      invariant k > 0 ==> items[k - 1].priority == priority
      invariant Sound(p, run, w, priority, multiset(items[..k])) && (stopOnError ==> p.err.None?)
    {
      var stopped;
      p, stopped := StartNext(p, items[k], priority, stopOnError, run, w, multiset(items[..k]));
      if stopped {
        StoppedEarly(operations, items, k, p, run, w, priority);
        return p.w, p.groupErr, p.log;
      }
      priority := items[k].priority;
      assert items[..k + 1] == items[..k] + [items[k]];
    }
    assert items[..|items|] == items;
    p := Wait(p, run, w, priority, multiset(items));
    Completed(operations, stopOnError, p, run, w, priority);
    return p.w, if p.err.None? then p.groupErr else p.err, p.log;
  }

  /** The error reported is that of an operation of the highest failing priority. */
  lemma ErrorFromHighestFailing<W(!new)>(operations: seq<Operation>, stopOnError: bool, run: Body<W>, w: W,
                                         order: seq<Operation>, w': W, err: Option<Error>)
    requires Execution(operations, stopOnError, run, w, order, w', err)
    ensures err.None? ==> forall i :: 0 <= i < |order| ==> ErrorOf(run, order, w, i).None?
    ensures err.Some? ==>
              exists i :: 0 <= i < |order| && ErrorOf(run, order, w, i) == err
                && forall j :: 0 <= j < |order| && ErrorOf(run, order, w, j).Some? ==>
                     order[j].priority <= order[i].priority
  {
    if err.None? {
      forall i | 0 <= i < |order| ensures ErrorOf(run, order, w, i).None? {
        NoFailureMeaning(run, order, w, i);
      }
    } else {
      var i := FirstFailureIndex(run, order, w);
      forall j | 0 <= j < i ensures ErrorOf(run, order, w, j).None? {
        NoFailureMeaning(run, order[..i], w, j);
        assert order[..i][..j] == order[..j];
      }
    }
  }
}
