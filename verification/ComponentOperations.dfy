/** The operate/reboot/operate loop over the components of one request. */
module ComponentOperations {
  import opened Prelude
  import opened PriorityOperations

  datatype StatusKind = Installed | Installing | InError

  datatype StatusInfo = StatusInfo(componentType: string, version: string, status: StatusKind, error: Error)

  /** A configured component: its module's state and its two priorities. */
  datatype Component<M> = Component(updateModule: M, updatePriority: nat, rebootPriority: nat)

  /** What a call does: the module's next state, the answer, and whether the requested version was stored. */
  datatype Answer<M> = Answer(next: M, result: CallResult, stores: bool)

  /** The operation of an event and the modules' reboot: any functions at all. The state M of a module may hold
      whatever decides how its calls turn out; an operation also gets the component's id, the version requested
      for it and the number of calls made before. */
  datatype Calls<!M> = Calls(operate: (string, string, nat, M) -> Answer<M>, reboot: M -> Answer<M>)

  datatype Action = Operate | Reboot

  datatype Call<M> = Call(action: Action, before: M, answer: Answer<M>)

  /** A component of the request: None if it is not configured; the calls made so far; its version in storage. */
  datatype Entry<M> = Entry(component: Option<Component<M>>, status: StatusInfo, history: seq<Call<M>>,
      stored: Option<string>)

  datatype World<M> = World(entries: map<string, Entry<M>>, reboots: seq<string>)

  // ---------------------------------------------------------------- one call

  function Invoke<M>(calls: Calls<M>, action: Action, id: string, version: string, made: nat, m: M): Answer<M> {
    match action
    case Operate => calls.operate(id, version, made, m)
    case Reboot => calls.reboot(m)
  }

  function WithError(status: StatusInfo, error: Error): StatusInfo {
    status.(status := InError, error := error)
  }

  /** The entry after one more call. */
  function Perform<M>(calls: Calls<M>, action: Action, id: string, e: Entry<M>): Entry<M>
    requires e.component.Some?
  {
    var m := e.component.value.updateModule;
    var answer := Invoke(calls, action, id, e.status.version, |e.history|, m);
    Entry(Some(e.component.value.(updateModule := answer.next)),
          if answer.result.Failed? then WithError(e.status, answer.result.error) else e.status,
          e.history + [Call(action, m, answer)],
          if answer.stores then Some(e.status.version) else e.stored)
  }

  function Last<M>(e: Entry<M>): CallResult
    requires e.history != []
  {
    e.history[|e.history| - 1].answer.result
  }

  // ---------------------------------------------------------------- one round

  function RoundBody<M>(calls: Calls<M>, action: Action): Body<World<M>> {
    (id: string, w: World<M>) =>
      if id !in w.entries || w.entries[id].component.None? then (w, None)
      else
        var e := Perform(calls, action, id, w.entries[id]);
        (World(w.entries[id := e], if Last(e) == RebootRequired then w.reboots + [id] else w.reboots),
         match Last(e) case Failed(err) => Some(err) case _ => None)
  }

  ghost predicate DistinctIds(ids: seq<string>) {
    forall i, j :: 0 <= i < j < |ids| ==> ids[i] != ids[j]
  }

  function Ids(order: seq<Operation>): seq<string> {
    seq(|order|, i requires 0 <= i < |order| => order[i].id)
  }

  /** Each of the given components was called once, in the state it had before the round; nothing else changed,
      and exactly those that asked for it are to be rebooted. */
  ghost predicate Called<M(!new)>(calls: Calls<M>, action: Action, ids: seq<string>, w: World<M>, w': World<M>) {
    && w'.entries.Keys == w.entries.Keys
    && (forall id :: id in ids ==> Present(w, id) && w'.entries[id] == Perform(calls, action, id, w.entries[id]))
    && (forall id :: id in w.entries && id !in ids ==> w'.entries[id] == w.entries[id])
    && DistinctIds(w'.reboots)
    && (forall id :: id in w'.reboots <==> id in ids && Last(w'.entries[id]) == RebootRequired)
  }

  predicate Present<M>(w: World<M>, id: string) {
    id in w.entries && w.entries[id].component.Some?
  }

  lemma OneMoreCalled<M(!new)>(calls: Calls<M>, action: Action, ids: seq<string>, id: string, w: World<M>, w': World<M>)
    requires Called(calls, action, ids, w, w') && id !in ids && Present(w, id)
    ensures Called(calls, action, ids + [id], w, RoundBody(calls, action)(id, w').0)
    ensures var err := RoundBody(calls, action)(id, w').1;
      err.Some? <==> Last(Perform(calls, action, id, w.entries[id])).Failed?
  {
    var w2 := RoundBody(calls, action)(id, w').0;
    assert w'.entries[id] == w.entries[id];
    forall x ensures x in w2.reboots <==> x in ids + [id] && Last(w2.entries[x]) == RebootRequired {
    }
    DistinctSnoc(w'.reboots, id);
  }

  lemma DistinctSnoc(ids: seq<string>, id: string)
    requires DistinctIds(ids) && id !in ids
    ensures DistinctIds(ids + [id])
  {
  }

  lemma NotBefore(ids: seq<string>, k: nat)
    requires DistinctIds(ids) && k < |ids|
    ensures ids[k] !in ids[..k]
  {
  }

  lemma NoIds()
    ensures Ids([]) == [] && DistinctIds([])
  {
  }

  /** The calls of a round touch one entry each, so their order does not matter to the entries. */
  lemma {:induction false} RoundEffect<M(!new)>(calls: Calls<M>, action: Action, order: seq<Operation>, w: World<M>)
    requires DistinctIds(Ids(order)) && w.reboots == []
    requires forall op :: op in order ==> Present(w, op.id)
    ensures Called(calls, action, Ids(order), w, RunAll(RoundBody(calls, action), order, w))
  {
    if order != [] {
      var front, last := order[..|order| - 1], order[|order| - 1];
      FrontIds(order);
      RoundEffect(calls, action, front, w);
      OneMoreCalled(calls, action, Ids(front), last.id, w, RunAll(RoundBody(calls, action), front, w));
    }
  }

  lemma FrontIds(order: seq<Operation>)
    requires order != [] && DistinctIds(Ids(order))
    ensures var front, last := order[..|order| - 1], order[|order| - 1];
      Ids(order) == Ids(front) + [last.id] && DistinctIds(Ids(front)) && last.id !in Ids(front)
  {
    var front := order[..|order| - 1];
    assert forall i :: 0 <= i < |front| ==> Ids(order)[i] == Ids(front)[i] && Ids(order)[i] != Ids(order)[|front|];
  }

  function Marked<M>(e: Entry<M>): Entry<M> {
    e.(status := WithError(e.status, "component not found"))
  }

  predicate Missing<M>(entries: map<string, Entry<M>>, id: string) {
    id in entries && entries[id].component.None?
  }

  predicate Configured<M>(entries: map<string, Entry<M>>, id: string) {
    id in entries && entries[id].component.Some?
  }

  ghost predicate SomeMissing<M>(entries: map<string, Entry<M>>, ids: seq<string>) {
    exists id :: id in ids && Missing(entries, id)
  }

  /** With stopOnError, a component that is not configured ends the round before any call. */
  ghost predicate Refused<M>(ids: seq<string>, entries: map<string, Entry<M>>, entries': map<string, Entry<M>>) {
    exists id :: id in ids && Missing(entries, id) && entries' == entries[id := Marked(entries[id])]
  }

  /** What decides when a component's turn comes: the update priority for operations, the reboot priority for
      reboots. */
  function Priority<M>(action: Action, entries: map<string, Entry<M>>, id: string): nat {
    if !Configured(entries, id) then 0
    else
      match action
      case Operate => entries[id].component.value.updatePriority
      case Reboot => entries[id].component.value.rebootPriority
  }

  /** The components are called highest priority first. */
  ghost predicate InTurn<M>(action: Action, entries: map<string, Entry<M>>, order: seq<string>) {
    && DistinctIds(order)
    && forall i, j :: 0 <= i < j < |order| ==>
         Priority(action, entries, order[i]) >= Priority(action, entries, order[j])
  }

  /** What the last call for the component answered. */
  function ResultOf<M>(entries: map<string, Entry<M>>, id: string): CallResult {
    if id in entries && entries[id].history != [] then Last(entries[id]) else Done
  }

  /** The error is that of a component called, and no component of a higher priority failed. */
  ghost predicate FromHighest<M>(action: Action, entries: map<string, Entry<M>>, entries': map<string, Entry<M>>,
                                 order: seq<string>, err: Error, first: string) {
    && first in order && ResultOf(entries', first) == Failed(err)
    && forall id :: id in order && ResultOf(entries', id).Failed? ==>
         Priority(action, entries, id) <= Priority(action, entries, first)
  }

  /** Exactly the components of the given priority or above are called. */
  ghost predicate DownTo<M>(action: Action, ids: seq<string>, entries: map<string, Entry<M>>, order: seq<string>,
                            priority: nat) {
    forall id :: id in ids && Configured(entries, id) ==>
      (id in order <==> Priority(action, entries, id) >= priority)
  }

  /** Otherwise the components of the round are called in the order of their priorities: all of them or, when errors
      stop the round, those down to the highest priority at which one fails. */
  ghost predicate Made<M(!new)>(calls: Calls<M>, action: Action, ids: seq<string>, stopOnError: bool,
                                entries: map<string, Entry<M>>, entries': map<string, Entry<M>>, order: seq<string>,
                                reboots: seq<string>, err: Option<Error>)
  {
    && InTurn(action, entries, order)
    && MadeCalls(calls, action, ids, entries, entries', order, reboots)
    && MadeError(action, ids, stopOnError, entries, entries', order, err)
  }

  /** Every component called is as its call left it, and those that asked for it are to be rebooted. */
  ghost predicate MadeCalls<M(!new)>(calls: Calls<M>, action: Action, ids: seq<string>, entries: map<string, Entry<M>>,
                                     entries': map<string, Entry<M>>, order: seq<string>, reboots: seq<string>)
  {
    && entries'.Keys == entries.Keys && (forall id :: id in order ==> id in ids && Configured(entries, id))
    && (forall id :: id in entries ==>
          if id in order then Configured(entries, id) && entries'[id] == Perform(calls, action, id, entries[id])
          else if id in ids && Missing(entries, id) then entries'[id] == Marked(entries[id])
          else entries'[id] == entries[id])
    && DistinctIds(reboots)
    && (forall id :: id in reboots <==> id in order && ResultOf(entries', id) == RebootRequired)
  }

  /** Which components are called, and which error is told. */
  ghost predicate MadeError<M>(action: Action, ids: seq<string>, stopOnError: bool, entries: map<string, Entry<M>>,
                               entries': map<string, Entry<M>>, order: seq<string>, err: Option<Error>)
  {
    && (!stopOnError || err.None? ==> forall id :: id in ids && Configured(entries, id) ==> id in order)
    && (if err.None? then forall id :: id in order ==> !ResultOf(entries', id).Failed?
        else exists first ::
          && FromHighest(action, entries, entries', order, err.value, first)
          && (stopOnError ==> DownTo(action, ids, entries, order, Priority(action, entries, first))))
  }

  /** Every operation has the priority of its component. */
  predicate Prioritised<M>(action: Action, entries: map<string, Entry<M>>, operations: seq<Operation>) {
    forall op :: op in operations ==>
      Configured(entries, op.id) && op.priority == Priority(action, entries, op.id)
  }

  /** Turns the components of a round into operations, marking those that are not configured. */
  method Collect<M>(action: Action, ids: seq<string>, stopOnError: bool, entries: map<string, Entry<M>>)
    returns (entries': map<string, Entry<M>>, operations: seq<Operation>, refused: bool)
    requires DistinctIds(ids) && forall id :: id in ids ==> id in entries
    ensures refused <==> stopOnError && SomeMissing(entries, ids)
    ensures refused ==> Refused(ids, entries, entries')
    ensures !refused ==>
              && entries'.Keys == entries.Keys
              && (forall id :: id in entries ==>
                    entries'[id] == if id in ids && Missing(entries, id) then Marked(entries[id]) else entries[id])
              && DistinctIds(Ids(operations))
              && (forall id :: id in Ids(operations) <==> id in ids && Configured(entries, id))
              && Prioritised(action, entries, operations)
  {
    hide DistinctIds;
    NoIds();
    entries', operations, refused := entries, [], false;
    for k := 0 to |ids|
      invariant entries'.Keys == entries.Keys
      invariant stopOnError ==> forall id :: id in ids[..k] ==> Configured(entries, id)
      invariant forall id :: id in entries ==>
              entries'[id] == if id in ids[..k] && Missing(entries, id) then Marked(entries[id]) else entries[id]
      invariant DistinctIds(Ids(operations))
      invariant forall id :: id in Ids(operations) <==> id in ids[..k] && Configured(entries, id)
      invariant Prioritised(action, entries, operations)
    {
      var id := ids[k];
      assert ids[..k + 1] == ids[..k] + [id];
      NotBefore(ids, k);
      match entries[id].component
      case None =>
        entries' := entries'[id := Marked(entries'[id])];
        if stopOnError {
          assert Missing(entries, id) && entries' == entries[id := Marked(entries[id])];
          return entries', [], true;
        }
      case Some(component) =>
        var op := Operation(if action.Reboot? then component.rebootPriority else component.updatePriority, id);
        assert Ids(operations + [op]) == Ids(operations) + [id];
        DistinctSnoc(Ids(operations), id);
        operations := operations + [op];
    }
    assert ids[..|ids|] == ids;
  }

  /** doOperation and doReboot; order tells which components were called, and in which order. Without stopOnError the
      error of a component that is not configured is lost: the result of the scheduler overwrites it. */
  method DoRound<M(!new)>(calls: Calls<M>, action: Action, ids: seq<string>, stopOnError: bool,
                          entries: map<string, Entry<M>>)
    returns (entries': map<string, Entry<M>>, order: seq<string>, reboots: seq<string>, err: Option<Error>)
    requires DistinctIds(ids) && forall id :: id in ids ==> id in entries
    ensures if stopOnError && SomeMissing(entries, ids)
            then Refused(ids, entries, entries') && order == [] && reboots == [] && err.Some?
            else Made(calls, action, ids, stopOnError, entries, entries', order, reboots, err)
  {
    var marked, operations, refused := Collect(action, ids, stopOnError, entries);
    if refused { return marked, [], [], Some("component not found"); }
    var w: World<M> := World(marked, []);
    forall op | op in operations ensures Present(w, op.id) {
      var i :| 0 <= i < |operations| && operations[i] == op;
      assert Ids(operations)[i] == op.id;
    }
    var w', opErr, log := DoPriorityOperations(operations, stopOnError, RoundBody(calls, action), w);
    order := Ids(FinishOrder(log));
    RoundMade(calls, action, ids, operations, FinishOrder(log), stopOnError, entries, w, w', opErr);
    return w'.entries, order, w'.reboots, opErr;
  }

  /** What the round's call of the component answers. */
  function AnswerOf<M>(calls: Calls<M>, action: Action, w: World<M>, id: string): CallResult {
    if Present(w, id) then Last(Perform(calls, action, id, w.entries[id])) else Done
  }

  lemma LastAnswer<M(!new)>(calls: Calls<M>, action: Action, front: seq<Operation>, last: Operation, w: World<M>)
    requires DistinctIds(Ids(front)) && last.id !in Ids(front) && w.reboots == [] && Present(w, last.id)
    requires forall op :: op in front ==> Present(w, op.id)
    ensures RoundBody(calls, action)(last.id, RunAll(RoundBody(calls, action), front, w)).1
         == match AnswerOf(calls, action, w, last.id) case Failed(e) => Some(e) case _ => None
  {
    RoundEffect(calls, action, front, w);
    assert RunAll(RoundBody(calls, action), front, w).entries[last.id] == w.entries[last.id];
  }

  /** The first failure of a round is the answer of one of its calls, and if the operations come in descending priority,
      none of a higher priority fails. */
  lemma {:induction false} RoundFails<M(!new)>(calls: Calls<M>, action: Action, order: seq<Operation>, w: World<M>)
    requires DistinctIds(Ids(order)) && w.reboots == [] && Descending(order)
    requires forall op :: op in order ==> Present(w, op.id)
    ensures match FirstFailure(RoundBody(calls, action), order, w)
            case None => forall op :: op in order ==> !AnswerOf(calls, action, w, op.id).Failed?
            case Some((first, err)) =>
              && first in order && AnswerOf(calls, action, w, first.id) == Failed(err)
              && forall op :: op in order && AnswerOf(calls, action, w, op.id).Failed? ==> op.priority <= first.priority
  {
    hide AnswerOf, RoundBody;
    if order != [] {
      var front, last := order[..|order| - 1], order[|order| - 1];
      FrontIds(order);
      assert Descending(front);
      RoundFails(calls, action, front, w);
      LastAnswer(calls, action, front, last, w);
      assert order == front + [last];
      forall op | op in front ensures op.priority >= last.priority {
        var k :| 0 <= k < |front| && front[k] == op;
        assert order[k] == op;
      }
    }
  }

  /** The world a round starts from: the components, with those that are not configured marked. */
  ghost predicate Begins<M>(ids: seq<string>, entries: map<string, Entry<M>>, operations: seq<Operation>, w: World<M>) {
    && w.reboots == [] && w.entries.Keys == entries.Keys
    && (forall id :: id in entries ==>
          w.entries[id] == if id in ids && Missing(entries, id) then Marked(entries[id]) else entries[id])
    && DistinctIds(Ids(operations))
    && (forall id :: id in Ids(operations) <==> id in ids && Configured(entries, id))
    && (forall op :: op in operations ==> Present(w, op.id))
  }

  lemma RoundMade<M(!new)>(calls: Calls<M>, action: Action, ids: seq<string>, operations: seq<Operation>,
                           order: seq<Operation>, stopOnError: bool, entries: map<string, Entry<M>>, w: World<M>,
                           w': World<M>, err: Option<Error>)
    requires Begins(ids, entries, operations, w) && Prioritised(action, entries, operations)
    requires forall id :: id in ids ==> id in entries
    requires Execution(operations, stopOnError, RoundBody(calls, action), w, order, w', err)
    ensures Made(calls, action, ids, stopOnError, entries, w'.entries, Ids(order), w'.reboots, err)
  {
    RoundOutcome(calls, action, operations, stopOnError, w, order, w', err);
    OrderInTurn(action, entries, operations, order);
    CallsGiven(calls, action, ids, entries, operations, Ids(order), w, w');
    ErrorGiven(calls, action, ids, operations, order, stopOnError, entries, w, w', err);
    hide Execution, Begins, Prioritised, Called, InTurn, MadeCalls, MadeError, DistinctIds, Ids;
  }

  lemma CallsGiven<M(!new)>(calls: Calls<M>, action: Action, ids: seq<string>, entries: map<string, Entry<M>>,
                            operations: seq<Operation>, order: seq<string>, w: World<M>, w': World<M>)
    requires Begins(ids, entries, operations, w) && Called(calls, action, order, w, w')
    requires forall id :: id in order ==> id in Ids(operations)
    ensures MadeCalls(calls, action, ids, entries, w'.entries, order, w'.reboots)
  {
    hide Ids, Invoke;
  }

  lemma ErrorGiven<M(!new)>(calls: Calls<M>, action: Action, ids: seq<string>, operations: seq<Operation>,
                            order: seq<Operation>, stopOnError: bool, entries: map<string, Entry<M>>, w: World<M>,
                            w': World<M>, err: Option<Error>)
    requires Begins(ids, entries, operations, w) && Prioritised(action, entries, operations)
    requires Execution(operations, stopOnError, RoundBody(calls, action), w, order, w', err)
    requires Called(calls, action, Ids(order), w, w') && DistinctIds(Ids(order))
    requires forall op :: op in order ==> op in operations
    requires !stopOnError || err.None? ==> forall id :: id in Ids(operations) ==> id in Ids(order)
    ensures MadeError(action, ids, stopOnError, entries, w'.entries, Ids(order), err)
  {
    AnswersGiven(calls, action, Ids(order), w, w');
    RoundFails(calls, action, order, w);
    hide Called, Ids, RoundBody, Perform, Priority, ResultOf, AnswerOf, FromHighest, DownTo, Prioritised, Descending,
         Exactly;
    if err.Some? {
      var first := FirstFailure(RoundBody(calls, action), order, w).value.0;
      HighestFails(calls, action, entries, operations, order, w, w', err.value, first);
      if stopOnError { StopsBelow(action, ids, entries, operations, order, w, first); }
    } else {
      NoneFails(calls, action, order, w, w');
    }
  }

  lemma AnswersGiven<M(!new)>(calls: Calls<M>, action: Action, ids: seq<string>, w: World<M>, w': World<M>)
    requires Called(calls, action, ids, w, w')
    ensures forall id :: id in ids ==> ResultOf(w'.entries, id) == AnswerOf(calls, action, w, id)
  {
  }

  lemma NoneFails<M(!new)>(calls: Calls<M>, action: Action, order: seq<Operation>, w: World<M>, w': World<M>)
    requires forall op :: op in order ==> !AnswerOf(calls, action, w, op.id).Failed?
    requires forall id :: id in Ids(order) ==> ResultOf(w'.entries, id) == AnswerOf(calls, action, w, id)
    ensures forall id :: id in Ids(order) ==> !ResultOf(w'.entries, id).Failed?
  {
    forall id | id in Ids(order) ensures !ResultOf(w'.entries, id).Failed? {
      var i :| 0 <= i < |order| && Ids(order)[i] == id;
      assert order[i] in order;
    }
  }

  lemma HighestFails<M(!new)>(calls: Calls<M>, action: Action, entries: map<string, Entry<M>>,
                              operations: seq<Operation>, order: seq<Operation>, w: World<M>, w': World<M>, err: Error,
                              first: Operation)
    requires Prioritised(action, entries, operations) && (forall op :: op in order ==> op in operations)
    requires first in order && AnswerOf(calls, action, w, first.id) == Failed(err)
    requires forall op :: op in order && AnswerOf(calls, action, w, op.id).Failed? ==> op.priority <= first.priority
    requires forall id :: id in Ids(order) ==> ResultOf(w'.entries, id) == AnswerOf(calls, action, w, id)
    ensures FromHighest(action, entries, w'.entries, Ids(order), err, first.id)
  {
    hide AnswerOf, ResultOf, Priority;
    var k :| 0 <= k < |order| && order[k] == first;
    assert Ids(order)[k] == first.id;
    forall id | id in Ids(order) && ResultOf(w'.entries, id).Failed?
      ensures Priority(action, entries, id) <= Priority(action, entries, first.id)
    {
      var i :| 0 <= i < |order| && Ids(order)[i] == id;
      assert order[i] in order;
    }
  }

  lemma StopsBelow<M(!new)>(action: Action, ids: seq<string>, entries: map<string, Entry<M>>,
                            operations: seq<Operation>, order: seq<Operation>, w: World<M>, first: Operation)
    requires Begins(ids, entries, operations, w) && Prioritised(action, entries, operations) && first in operations
    requires Exactly(operations, order, first.priority) && forall op :: op in order ==> op in operations
    ensures DownTo(action, ids, entries, Ids(order), Priority(action, entries, first.id))
  {
    hide Exactly, Priority;
    forall id | id in ids && Configured(entries, id)
      ensures id in Ids(order) <==> Priority(action, entries, id) >= first.priority
    {
      assert id in Ids(operations);
      var i :| 0 <= i < |operations| && Ids(operations)[i] == id;
      CalledIff(operations, order, first.priority, i);
    }
  }

  lemma OrderInTurn<M>(action: Action, entries: map<string, Entry<M>>, operations: seq<Operation>,
                       order: seq<Operation>)
    requires Prioritised(action, entries, operations) && Descending(order) && DistinctIds(Ids(order))
    requires forall op :: op in order ==> op in operations
    ensures InTurn(action, entries, Ids(order))
  {
    hide Priority;
    forall i, j | 0 <= i < j < |order|
      ensures Priority(action, entries, Ids(order)[i]) >= Priority(action, entries, Ids(order)[j])
    {
      assert order[i] in operations && order[j] in operations;
    }
  }

  lemma CalledIff(operations: seq<Operation>, order: seq<Operation>, p: nat, i: nat)
    requires DistinctIds(Ids(operations)) && Exactly(operations, order, p) && i < |operations|
    requires forall op :: op in order ==> op in operations
    ensures operations[i].id in Ids(order) <==> operations[i].priority >= p
  {
    var op := operations[i];
    CountOnce(operations, i);
    assert op in order <==> multiset(order)[op] > 0;
    if op in order {
      var k :| 0 <= k < |order| && order[k] == op;
      assert Ids(order)[k] == op.id;
    }
    if op.id in Ids(order) {
      var k :| 0 <= k < |order| && Ids(order)[k] == op.id;
      assert order[k] in operations;
      var m :| 0 <= m < |operations| && operations[m] == order[k];
      assert Ids(operations)[m] == Ids(operations)[i];
    }
  }

  lemma CountOnce(s: seq<Operation>, i: nat)
    requires i < |s| && DistinctIds(Ids(s))
    ensures multiset(s)[s[i]] == 1
  {
    assert s == s[..i] + [s[i]] + s[i + 1..];
    forall k | 0 <= k < |s| && k != i ensures s[k] != s[i] {
      assert Ids(s)[k] != Ids(s)[i];
    }
    assert s[i] !in s[..i] && s[i] !in s[i + 1..];
  }

  lemma CountTwice(s: seq<Operation>, i: nat, j: nat)
    requires i < j < |s| && s[i] == s[j]
    ensures multiset(s)[s[i]] >= 2
  {
    assert s == s[..i] + [s[i]] + s[i + 1..];
    assert s[i + 1..][j - i - 1] == s[i];
  }

  /** Running each of some of the operations at most once involves distinct ids among theirs. */
  lemma SubOrder(operations: seq<Operation>, order: seq<Operation>)
    requires DistinctIds(Ids(operations)) && multiset(order) <= multiset(operations)
    ensures DistinctIds(Ids(order))
    ensures forall op :: op in order ==> op in operations
    ensures forall id :: id in Ids(order) ==> id in Ids(operations)
    ensures multiset(order) == multiset(operations) ==> forall id :: id in Ids(operations) ==> id in Ids(order)
  {
    forall op | op in order ensures op in operations {
      assert op in multiset(order);
    }
    forall id | id in Ids(order) ensures id in Ids(operations) {
      var i :| 0 <= i < |order| && Ids(order)[i] == id;
      assert order[i] in operations;
      var k :| 0 <= k < |operations| && operations[k] == order[i];
      assert Ids(operations)[k] == id;
    }
    if multiset(order) == multiset(operations) {
      forall id | id in Ids(operations) ensures id in Ids(order) {
        var i :| 0 <= i < |operations| && Ids(operations)[i] == id;
        assert operations[i] in multiset(order);
        var k :| 0 <= k < |order| && order[k] == operations[i];
        assert Ids(order)[k] == id;
      }
    }
    forall i, j | 0 <= i < j < |order| ensures Ids(order)[i] != Ids(order)[j] {
      assert order[i] in operations && order[j] in operations;
      var a :| 0 <= a < |operations| && operations[a] == order[i];
      var b :| 0 <= b < |operations| && operations[b] == order[j];
      CountOnce(operations, a);
      if Ids(order)[i] == Ids(order)[j] {
        assert Ids(operations)[a] == Ids(operations)[b];
        CountTwice(order, i, j);
        assert false;
      }
    }
  }

  lemma RoundOutcome<M(!new)>(calls: Calls<M>, action: Action, operations: seq<Operation>, stopOnError: bool,
                              w: World<M>, order: seq<Operation>, w': World<M>, err: Option<Error>)
    requires DistinctIds(Ids(operations)) && w.reboots == []
    requires forall op :: op in operations ==> Present(w, op.id)
    requires Execution(operations, stopOnError, RoundBody(calls, action), w, order, w', err)
    ensures Called(calls, action, Ids(order), w, w') && DistinctIds(Ids(order))
    ensures forall op :: op in order ==> op in operations
    ensures forall id :: id in Ids(order) ==> id in Ids(operations)
    ensures !stopOnError || err.None? ==> forall id :: id in Ids(operations) ==> id in Ids(order)
  {
    SubOrder(operations, order);
    RoundEffect(calls, action, order, w);
  }
}
